/** String helpers the serializers are built from: joining, splitting at a separator, trimming. */
module Text {

  /** Unicode's White_Space property: the characters Rust's `str::trim` strips. */
  predicate IsWhitespace(c: char)
  {
    var n := c as int;
    (0x09 <= n <= 0x0D) || n == 0x20 || n == 0x85 || n == 0xA0 || n == 0x1680 ||
    (0x2000 <= n <= 0x200A) || n == 0x2028 || n == 0x2029 || n == 0x202F ||
    n == 0x205F || n == 0x3000
  }

  /** The parts in order with `sep` between neighbours and none at either end. */
  function Join(sep: string, parts: seq<string>): string
  {
    if |parts| == 0 then ""
    else if |parts| == 1 then parts[0]
    else parts[0] + sep + Join(sep, parts[1..])
  }

  /** Appending a part adds one separator and the part at the end. */
  lemma {:induction false} JoinSnoc(sep: string, parts: seq<string>, x: string)
    requires |parts| > 0
    ensures Join(sep, parts + [x]) == Join(sep, parts) + sep + x
  {
    if |parts| == 1 {
      assert (parts + [x])[1..] == [x];
    } else {
      assert (parts + [x])[1..] == parts[1..] + [x];
      JoinSnoc(sep, parts[1..], x);
    }
  }

  /** A join of one or more parts begins with the first part. */
  lemma {:induction false} JoinStartsWithFirst(sep: string, parts: seq<string>)
    requires |parts| > 0
    ensures |parts[0]| <= |Join(sep, parts)|
    ensures Join(sep, parts)[..|parts[0]|] == parts[0]
  {
    if |parts| > 1 {
      var rest := sep + Join(sep, parts[1..]);
      assert Join(sep, parts) == parts[0] + rest;
    }
  }

  /** The part of `s` before the first `sep`, or all of `s` when there is none. */
  function Before(sep: char, s: string): string
  {
    if s == [] || s[0] == sep then [] else [s[0]] + Before(sep, s[1..])
  }

  lemma {:induction false} BeforeSeparator(sep: char, a: string, b: string)
    requires sep !in a
    ensures Before(sep, a + [sep] + b) == a
  {
    if a != [] {
      assert (a + [sep] + b)[1..] == a[1..] + [sep] + b;
      BeforeSeparator(sep, a[1..], b);
    }
  }

  /** A join of one or more parts ends with the last part. */
  lemma {:induction false} JoinEndsWithLast(sep: string, parts: seq<string>)
    requires |parts| > 0
    ensures var last, j := parts[|parts| - 1], Join(sep, parts);
            |last| <= |j| && j[|j| - |last|..] == last
  {
    if |parts| > 1 {
      JoinEndsWithLast(sep, parts[1..]);
      assert Join(sep, parts) == (parts[0] + sep) + Join(sep, parts[1..]);
    }
  }

  /**
   * A string of the form `a + [sep] + b` where `a` does not contain `sep`
   * determines `a` and `b`: the first `sep` is the boundary.
   */
  lemma SplitAtFirst(sep: char, a1: string, b1: string, a2: string, b2: string)
    requires sep !in a1 && sep !in a2
    requires a1 + [sep] + b1 == a2 + [sep] + b2
    ensures a1 == a2 && b1 == b2
  {
    var s := a1 + [sep] + b1;
    BeforeSeparator(sep, a1, b1);
    BeforeSeparator(sep, a2, b2);
    assert b1 == s[|a1| + 1..] == b2;
  }

  /** Drops the leading whitespace. */
  function TrimStart(s: string): (r: string)
    ensures |r| <= |s| && r == s[|s| - |r|..]
    ensures forall i :: 0 <= i < |s| - |r| ==> IsWhitespace(s[i])
    ensures r == [] || !IsWhitespace(r[0])
    decreases |s|
  {
    if |s| > 0 && IsWhitespace(s[0]) then TrimStart(s[1..]) else s
  }

  /** Drops the trailing whitespace. */
  function TrimEnd(s: string): (r: string)
    ensures |r| <= |s| && r == s[..|r|]
    ensures forall i :: |r| <= i < |s| ==> IsWhitespace(s[i])
    ensures r == [] || !IsWhitespace(r[|r| - 1])
    decreases |s|
  {
    if |s| > 0 && IsWhitespace(s[|s| - 1]) then TrimEnd(s[..|s| - 1]) else s
  }

  /**
   * Rust's `str::trim`: the longest run of `s` that neither begins nor ends
   * with whitespace, found by dropping whitespace at both ends and nothing else.
   */
  function Trim(s: string): (r: string)
    ensures |r| <= |s|
    ensures r == [] <==> forall i :: 0 <= i < |s| ==> IsWhitespace(s[i])
    ensures r != [] ==> !IsWhitespace(r[0]) && !IsWhitespace(r[|r| - 1])
    ensures |r| <= |TrimStart(s)| && r == TrimStart(s)[..|r|]
    ensures forall i :: |r| <= i < |TrimStart(s)| ==> IsWhitespace(TrimStart(s)[i])
  {
    var t := TrimStart(s);
    var r := TrimEnd(t);
    r
  }

  /** A string that begins and ends with non-whitespace is its own trim. */
  lemma TrimOfTrimmed(s: string)
    requires s != [] && !IsWhitespace(s[0]) && !IsWhitespace(s[|s| - 1])
    ensures Trim(s) == s
  {
    assert TrimStart(s) == s;
    assert TrimEnd(s) == s;
  }

  /**
   * Trimming keeps a leading run `s[..k]` intact when it starts and ends with
   * non-whitespace.
   */
  lemma TrimKeepsPrefix(s: string, k: nat)
    requires 0 < k <= |s|
    requires !IsWhitespace(s[0]) && !IsWhitespace(s[k - 1])
    ensures k <= |Trim(s)| && Trim(s)[..k] == s[..k]
  {
    assert TrimStart(s) == s;
    var r := TrimEnd(s);
    assert r[..k] == s[..k];
  }

  /**
   * Joining parts whose first begins and whose last ends with non-whitespace
   * gives a string the trim leaves alone.
   */
  lemma TrimOfJoin(sep: string, parts: seq<string>)
    requires |parts| > 0 && parts[0] != [] && parts[|parts| - 1] != []
    requires !IsWhitespace(parts[0][0])
    requires var last := parts[|parts| - 1]; !IsWhitespace(last[|last| - 1])
    ensures Trim(Join(sep, parts)) == Join(sep, parts)
  {
    var j, last := Join(sep, parts), parts[|parts| - 1];
    JoinStartsWithFirst(sep, parts);
    JoinEndsWithLast(sep, parts);
    assert j[0] == j[..|parts[0]|][0] == parts[0][0];
    assert j[|j| - 1] == j[|j| - |last|..][|last| - 1] == last[|last| - 1];
    TrimOfTrimmed(j);
  }

  /** Trimming twice is trimming once. */
  lemma TrimIdempotent(s: string)
    ensures Trim(Trim(s)) == Trim(s)
  {
    var r := Trim(s);
    if r != [] {
      TrimOfTrimmed(r);
    }
  }
}
