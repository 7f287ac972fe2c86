/**
 * Cast specifiers of the form "type:opt1,opt2": the string handling that
 * `resolveCasterClass` performs before it dispatches on the type.
 */
module Specifiers {

  /** `s.indexOf(c)`, with `|s|` in place of -1 when `c` does not occur. */
  function IndexOf(s: string, c: char): (i: nat)
    ensures i <= |s|
    ensures i < |s| ==> s[i] == c
    ensures forall j | 0 <= j < i :: s[j] != c
    ensures i == |s| <==> c !in s
  {
    if s == [] then 0 else if s[0] == c then 0 else 1 + IndexOf(s[1..], c)
  }

  /**
   * `s.split(sep)` for a one-character separator: the pieces between the
   * separators, so there is always at least one, and empty pieces are kept.
   */
  function Split(s: string, sep: char): (parts: seq<string>)
    ensures |parts| >= 1
    decreases |s|
  {
    var i := IndexOf(s, sep);
    if i == |s| then [s] else [s[..i]] + Split(s[i + 1..], sep)
  }

  /** The first piece runs up to the first separator; there is more than one piece exactly when a separator occurs. */
  lemma SplitHead(s: string, sep: char)
    ensures Split(s, sep)[0] == s[..IndexOf(s, sep)]
    ensures |Split(s, sep)| == 1 <==> sep !in s
  {
  }

  /** No piece contains the separator. */
  lemma {:induction false} SplitPieces(s: string, sep: char)
    ensures forall p | p in Split(s, sep) :: sep !in p
    decreases |s|
  {
    var i := IndexOf(s, sep);
    if i < |s| {
      SplitPieces(s[i + 1..], sep);
      assert Split(s, sep) == [s[..i]] + Split(s[i + 1..], sep);
    }
  }

  /** `parts.join(sep)`. */
  function Join(parts: seq<string>, sep: char): string
  {
    if parts == [] then ""
    else if |parts| == 1 then parts[0]
    else parts[0] + [sep] + Join(parts[1..], sep)
  }

  /** Splitting and joining again gives back the string. */
  lemma {:induction false} JoinSplit(s: string, sep: char)
    ensures Join(Split(s, sep), sep) == s
    decreases |s|
  {
    var i := IndexOf(s, sep);
    if i < |s| {
      var rest := Split(s[i + 1..], sep);
      JoinSplit(s[i + 1..], sep);
      assert Split(s, sep) == [s[..i]] + rest;
      assert ([s[..i]] + rest)[1..] == rest;
      assert Join(Split(s, sep), sep) == s[..i] + [sep] + Join(rest, sep);
      assert s == s[..i] + [sep] + s[i + 1..];
    }
  }

  /** Splitting at a first separator that follows a piece free of it. */
  lemma SplitAt(head: string, sep: char, tail: string)
    requires sep !in head
    ensures Split(head + [sep] + tail, sep) == [head] + Split(tail, sep)
  {
    var s := head + [sep] + tail;
    assert s[|head|] == sep;
    assert forall j | 0 <= j < |head| :: s[j] == head[j];
    assert IndexOf(s, sep) == |head|;
    assert s[..|head|] == head;
    assert s[|head| + 1..] == tail;
  }

  /** Joining pieces free of the separator and splitting again gives back the pieces. */
  lemma {:induction false} SplitJoin(parts: seq<string>, sep: char)
    requires |parts| >= 1
    requires forall p | p in parts :: sep !in p
    ensures Split(Join(parts, sep), sep) == parts
    decreases |parts|
  {
    if |parts| > 1 {
      SplitJoin(parts[1..], sep);
      SplitAt(parts[0], sep, Join(parts[1..], sep));
    }
  }

  /** A parsed specifier: the type name and the positional options. */
  datatype CastSpec = CastSpec(castType: string, options: seq<string>)

  /**
   * Parses "type:opt1,opt2". Without a ':' the whole string is the type and
   * there are no options. With one, the type is the text before the first
   * ':' and the options are the text between the first and the second ':'
   * (or the end) split on ','; `split(':', 2)` drops anything after a second ':'.
   */
  function ParseSpecifier(s: string): (spec: CastSpec)
    ensures ':' !in s ==> spec == CastSpec(s, [])
    ensures ':' in s ==>
      var i := IndexOf(s, ':');
      var rest := s[i + 1..];
      && spec.castType == s[..i]
      && |spec.options| >= 1
      && Join(spec.options, ',') == rest[..IndexOf(rest, ':')]
      && (forall o | o in spec.options :: ',' !in o)
  {
    if ':' in s then
      var segments := Split(s, ':')[..2];
      var i := IndexOf(s, ':');
      assert Split(s, ':') == [s[..i]] + Split(s[i + 1..], ':');
      SplitHead(s[i + 1..], ':');
      JoinSplit(segments[1], ',');
      SplitPieces(segments[1], ',');
      CastSpec(segments[0], Split(segments[1], ','))
    else
      CastSpec(s, [])
  }

  /** A type and a middle part free of ':', written with one ':' between them, split into those two. */
  lemma SpecifierSegments(castType: string, middle: string)
    requires ':' !in castType && ':' !in middle
    ensures ':' in castType + ":" + middle
    ensures Split(castType + ":" + middle, ':')[..2] == [castType, middle]
  {
    var s := castType + ":" + middle;
    assert s[|castType|] == ':';
    SplitAt(castType, ':', middle);
    SplitHead(middle, ':');
    assert middle[..IndexOf(middle, ':')] == middle;
  }

  /** Options written with ',' between them and no ':' come back as written. */
  lemma ParseSpecifierOptions(castType: string, options: seq<string>)
    requires ':' !in castType
    requires |options| >= 1
    requires forall o | o in options :: ',' !in o && ':' !in o
    ensures ParseSpecifier(castType + ":" + Join(options, ',')) == CastSpec(castType, options)
  {
    var middle := Join(options, ',');
    JoinNoSeparator(options, ',', ':');
    SpecifierSegments(castType, middle);
    SplitJoin(options, ',');
  }

  /** Joining pieces free of `c` with a separator other than `c` produces no `c`. */
  lemma {:induction false} JoinNoSeparator(parts: seq<string>, sep: char, c: char)
    requires sep != c
    requires forall p | p in parts :: c !in p
    ensures c !in Join(parts, sep)
    decreases |parts|
  {
    if |parts| > 1 {
      JoinNoSeparator(parts[1..], sep, c);
    }
  }
}
