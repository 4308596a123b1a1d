/** The java.lang.String operations the URL-list parser and the result
    writer rely on: split on a one-character separator, trim, and
    equalsIgnoreCase. */
module Strings {

  /** The fields between separators, empty ones included; for a string with
      n separators there are n + 1 fields. */
  function SplitAll(s: string, sep: char): (fields: seq<string>)
    ensures |fields| >= 1
    ensures forall i :: 0 <= i < |fields| ==> sep !in fields[i]
    decreases |s|
  {
    if s == [] then [[]]
    else
      var rest := SplitAll(s[1..], sep);
      if s[0] == sep then [[]] + rest else [[s[0]] + rest[0]] + rest[1..]
  }

  /** The fields glued back together with the separator between them. */
  function Join(fields: seq<string>, sep: char): string
    requires |fields| >= 1
  {
    if |fields| == 1 then fields[0] else fields[0] + [sep] + Join(fields[1..], sep)
  }

  /** Removing the empty fields at the end, as String.split does when called
      without a limit. */
  function DropTrailingEmpty(xs: seq<string>): (r: seq<string>)
    ensures |r| <= |xs| && r == xs[..|r|]
    ensures r == [] || r[|r| - 1] != []
    ensures forall i :: |r| <= i < |xs| ==> xs[i] == []
  {
    if xs == [] || xs[|xs| - 1] != [] then xs else DropTrailingEmpty(xs[..|xs| - 1])
  }

  /** String.split(sep) for a separator that is not a regular-expression
      metacharacter: a string without the separator is returned whole (even
      when it is empty); otherwise the fields, minus trailing empty ones. */
  function JavaSplit(s: string, sep: char): (cols: seq<string>)
    ensures sep !in s ==> cols == [s]
    ensures forall i :: 0 <= i < |cols| ==> sep !in cols[i]
    ensures sep in s ==> cols == [] || cols[|cols| - 1] != []
    ensures sep in s ==> exists n: nat :: |cols| + n >= 1 && Join(cols + Blanks(n), sep) == s
  {
    if sep !in s then [s]
    else
      var all := SplitAll(s, sep);
      var cols := DropTrailingEmpty(all);
      JavaSplitRejoins(s, sep, all, cols);
      cols
  }

  /** n empty fields. */
  function Blanks(n: nat): (r: seq<string>)
    ensures |r| == n && forall i :: 0 <= i < n ==> r[i] == []
  {
    if n == 0 then [] else Blanks(n - 1) + [[]]
  }

  /** The kept fields and the dropped empty ones join back to the string. */
  lemma JavaSplitRejoins(s: string, sep: char, all: seq<string>, cols: seq<string>)
    requires all == SplitAll(s, sep) && cols == DropTrailingEmpty(all)
    ensures |cols| + (|all| - |cols|) >= 1 && Join(cols + Blanks(|all| - |cols|), sep) == s
  {
    assert cols + Blanks(|all| - |cols|) == all;
    JoinSplit(s, sep);
  }

  /** String.trim() removes every leading and trailing character whose code
      is at most U+0020. */
  predicate IsTrimmed(c: char) {
    c <= ' '
  }

  /** The number of leading characters trim() removes. */
  function LeadingTrimmed(s: string): (k: nat)
    ensures k <= |s|
    ensures forall i :: 0 <= i < k ==> IsTrimmed(s[i])
    ensures k < |s| ==> !IsTrimmed(s[k])
  {
    if s != [] && IsTrimmed(s[0]) then 1 + LeadingTrimmed(s[1..]) else 0
  }

  /** The length of what is left once trim() removes the trailing characters. */
  function TrailingKept(s: string): (k: nat)
    ensures k <= |s|
    ensures forall i :: k <= i < |s| ==> IsTrimmed(s[i])
    ensures k > 0 ==> !IsTrimmed(s[k - 1])
  {
    if s != [] && IsTrimmed(s[|s| - 1]) then TrailingKept(s[..|s| - 1]) else |s|
  }

  function TrimStart(s: string): (r: string)
    ensures |r| <= |s| && r == s[|s| - |r|..]
    ensures r == [] || !IsTrimmed(r[0])
    ensures forall i :: 0 <= i < |s| - |r| ==> IsTrimmed(s[i])
  {
    s[LeadingTrimmed(s)..]
  }

  function TrimEnd(s: string): (r: string)
    ensures |r| <= |s| && r == s[..|r|]
    ensures r == [] || !IsTrimmed(r[|r| - 1])
    ensures forall i :: |r| <= i < |s| ==> IsTrimmed(s[i])
  {
    s[..TrailingKept(s)]
  }

  /** String.trim(): the longest slice whose first and last characters are
      visible; everything cut off on either side is at most U+0020. */
  function Trim(s: string): (r: string)
    ensures var k := LeadingTrimmed(s);
      && k + |r| <= |s| && r == s[k..k + |r|]
      && (forall i :: k + |r| <= i < |s| ==> IsTrimmed(s[i]))
    ensures r != [] ==> !IsTrimmed(r[0]) && !IsTrimmed(r[|r| - 1])
  {
    var t := TrimStart(s);
    var k := |s| - |t|;
    var r := TrimEnd(t);
    assert r == s[k..k + |r|];
    assert forall i :: k + |r| <= i < |s| ==> s[i] == t[i - k];
    r
  }

  /** Character.toUpperCase and toLowerCase, restricted to ASCII letters. */
  function ToUpper(c: char): char {
    if 'a' <= c <= 'z' then (c as int - 32) as char else c
  }

  function ToLower(c: char): char {
    if 'A' <= c <= 'Z' then (c as int + 32) as char else c
  }

  /** The per-character test of String.equalsIgnoreCase. */
  predicate CharEqualsIgnoreCase(a: char, b: char) {
    a == b || ToUpper(a) == ToUpper(b) || ToLower(ToUpper(a)) == ToLower(ToUpper(b))
  }

  /** Two strings of equal length whose characters pair up ignoring case;
      for ASCII case mapping that is equality after lower-casing. */
  function EqualsIgnoreCase(s: string, t: string): (b: bool)
    ensures b <==> |s| == |t| && forall i :: 0 <= i < |s| ==> ToLower(s[i]) == ToLower(t[i])
  {
    |s| == |t| && forall i :: 0 <= i < |s| ==> CharEqualsIgnoreCase(s[i], t[i])
  }

  /** A separator directly after a separator-free prefix closes the first field. */
  lemma {:induction false} SplitAllAfterField(a: string, b: string, sep: char)
    requires sep !in a
    ensures SplitAll(a + [sep] + b, sep) == [a] + SplitAll(b, sep)
  {
    if a == [] {
      assert a + [sep] + b == [sep] + b;
    } else {
      var s := a + [sep] + b;
      SplitAllAfterField(a[1..], b, sep);
      assert s[1..] == a[1..] + [sep] + b;
      assert s[0] == a[0] != sep;
      assert SplitAll(s, sep) == [[a[0]] + a[1..]] + SplitAll(b, sep);
      assert [a[0]] + a[1..] == a;
    }
  }

  /** A string without the separator is one field. */
  lemma {:induction false} SplitAllSingleField(a: string, sep: char)
    requires sep !in a
    ensures SplitAll(a, sep) == [a]
  {
    if a != [] {
      SplitAllSingleField(a[1..], sep);
      assert [a[0]] + a[1..] == a;
    }
  }

  /** Splitting undoes joining, for fields free of the separator. */
  lemma {:induction false} SplitJoin(fields: seq<string>, sep: char)
    requires |fields| >= 1
    requires forall i :: 0 <= i < |fields| ==> sep !in fields[i]
    ensures SplitAll(Join(fields, sep), sep) == fields
  {
    if |fields| == 1 {
      SplitAllSingleField(fields[0], sep);
    } else {
      SplitJoin(fields[1..], sep);
      SplitAllAfterField(fields[0], Join(fields[1..], sep), sep);
      assert [fields[0]] + fields[1..] == fields;
    }
  }

  /** Joining undoes splitting. */
  lemma {:induction false} JoinSplit(s: string, sep: char)
    ensures Join(SplitAll(s, sep), sep) == s
    decreases |s|
  {
    if s != [] {
      var rest := SplitAll(s[1..], sep);
      JoinSplit(s[1..], sep);
      if s[0] == sep {
        assert ([[]] + rest)[1..] == rest;
      } else {
        var fields := [[s[0]] + rest[0]] + rest[1..];
        if |rest| == 1 {
          assert Join(fields, sep) == [s[0]] + rest[0];
        } else {
          assert fields[1..] == rest[1..];
          assert Join(rest, sep) == rest[0] + [sep] + Join(rest[1..], sep);
        }
        assert [s[0]] + s[1..] == s;
      }
    }
  }

  lemma JoinThree(fields: seq<string>, sep: char)
    requires |fields| == 3
    ensures Join(fields, sep) == fields[0] + [sep] + fields[1] + [sep] + fields[2]
  {
    var tail := fields[1..];
    assert tail[1..] == fields[2..];
    assert Join(fields[2..], sep) == fields[2];
    assert Join(tail, sep) == fields[1] + [sep] + fields[2];
    assert Join(fields, sep) == fields[0] + [sep] + (fields[1] + [sep] + fields[2]);
  }

  /** trim() leaves a string alone when both ends are visible characters. */
  lemma TrimVisibleEnds(s: string)
    requires s != [] && !IsTrimmed(s[0]) && !IsTrimmed(s[|s| - 1])
    ensures Trim(s) == s
  {
  }
}
