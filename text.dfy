/** The three Python `str` operations the application relies on: `strip()`
    with no argument, `split(sep)` with a one-character separator, and
    `sep.join(parts)`. Strings are sequences of Unicode scalar values. */
module PyText {

  /** `c.isspace()` in Python: the characters of bidirectional class WS, B
      or S, or of general category Zs. `strip()` removes exactly these. */
  predicate IsSpace(c: char) {
    var n := c as int;
    || 0x09 <= n <= 0x0D
    || 0x1C <= n <= 0x20
    || n == 0x85 || n == 0xA0 || n == 0x1680
    || 0x2000 <= n <= 0x200A
    || n == 0x2028 || n == 0x2029 || n == 0x202F || n == 0x205F || n == 0x3000
  }

  predicate AllSpace(s: string) {
    forall i :: 0 <= i < |s| ==> IsSpace(s[i])
  }

  /** Drops the leading white space. */
  function TrimStart(s: string): string {
    if |s| > 0 && IsSpace(s[0]) then TrimStart(s[1..]) else s
  }

  /** Drops the trailing white space. */
  function TrimEnd(s: string): string {
    if |s| > 0 && IsSpace(s[|s| - 1]) then TrimEnd(s[..|s| - 1]) else s
  }

  /** What `TrimStart` leaves is a suffix of `s` that is empty or starts with
      a non-space character, and everything cut off is white space. */
  lemma {:induction false} TrimStartSpec(s: string)
    ensures |TrimStart(s)| <= |s| && TrimStart(s) == s[|s| - |TrimStart(s)|..]
    ensures forall i :: 0 <= i < |s| - |TrimStart(s)| ==> IsSpace(s[i])
    ensures TrimStart(s) != [] ==> !IsSpace(TrimStart(s)[0])
  {
    if |s| > 0 && IsSpace(s[0]) {
      TrimStartSpec(s[1..]);
      assert forall i :: 1 <= i < |s| ==> s[1..][i - 1] == s[i];
    }
  }

  /** What `TrimEnd` leaves is a prefix of `s` that is empty or ends with a
      non-space character, and everything cut off is white space. */
  lemma {:induction false} TrimEndSpec(s: string)
    ensures |TrimEnd(s)| <= |s| && TrimEnd(s) == s[..|TrimEnd(s)|]
    ensures forall i :: |TrimEnd(s)| <= i < |s| ==> IsSpace(s[i])
    ensures TrimEnd(s) != [] ==> !IsSpace(TrimEnd(s)[|TrimEnd(s)| - 1])
  {
    if |s| > 0 && IsSpace(s[|s| - 1]) {
      TrimEndSpec(s[..|s| - 1]);
    }
  }

  /** `s.strip()`. */
  function Strip(s: string): string {
    TrimEnd(TrimStart(s))
  }

  /** `s[lo..hi]` is `s` with its white-space margins cut off: everything
      outside it is white space, and it neither starts nor ends with white
      space. */
  ghost predicate StripBounds(s: string, lo: int, hi: int) {
    && 0 <= lo <= hi <= |s|
    && (forall i :: 0 <= i < |s| && !(lo <= i < hi) ==> IsSpace(s[i]))
    && (lo < hi ==> !IsSpace(s[lo]) && !IsSpace(s[hi - 1]))
  }

  lemma StripHasBounds(s: string) returns (lo: int, hi: int)
    ensures StripBounds(s, lo, hi) && Strip(s) == s[lo..hi]
  {
    var t := TrimStart(s);
    var r := TrimEnd(t);
    TrimStartSpec(s);
    TrimEndSpec(t);
    lo := |s| - |t|;
    hi := lo + |r|;
    assert r == s[lo..hi];
    if lo < hi {
      assert s[lo] == r[0] && s[hi - 1] == r[|r| - 1];
    }
    forall i | 0 <= i < |s| && !(lo <= i < hi)
      ensures IsSpace(s[i])
    {
      if i >= hi {
        assert s[i] == t[i - lo];
      }
    }
  }

  /** The margins are determined by `s`: there is only one stripped form. */
  lemma StripBoundsUnique(s: string, lo1: int, hi1: int, lo2: int, hi2: int)
    requires StripBounds(s, lo1, hi1) && StripBounds(s, lo2, hi2)
    ensures s[lo1..hi1] == s[lo2..hi2]
  {
    if lo1 < hi1 && lo2 < hi2 {
      assert lo1 == lo2 && hi1 == hi2;
    }
  }

  /** `Strip` agrees with the description above: its result is the one slice
      of `s` that has white space, and only white space, around it. */
  lemma StripCharacterized(s: string, lo: int, hi: int)
    requires StripBounds(s, lo, hi)
    ensures Strip(s) == s[lo..hi]
  {
    var lo', hi' := StripHasBounds(s);
    StripBoundsUnique(s, lo, hi, lo', hi');
  }

  /** Stripping gives the empty string exactly for all-white-space input. */
  lemma StripEmptyIff(s: string)
    ensures Strip(s) == "" <==> AllSpace(s)
  {
    var lo, hi := StripHasBounds(s);
    if AllSpace(s) {
      StripCharacterized(s, 0, 0);
    }
  }

  /** A string without white-space margins is its own stripped form; in
      particular `strip()` is idempotent. */
  lemma StripFixedPoint(s: string)
    requires s != [] ==> !IsSpace(s[0]) && !IsSpace(s[|s| - 1])
    ensures Strip(s) == s
  {
    StripCharacterized(s, 0, |s|);
  }

  lemma StripIdempotent(s: string)
    ensures Strip(Strip(s)) == Strip(s)
  {
    var lo, hi := StripHasBounds(s);
    StripFixedPoint(Strip(s));
  }

  /** The number of occurrences of `c` in `s`. */
  function Count(s: string, c: char): nat {
    multiset(s)[c]
  }

  /** `s.split(sep)`: the pieces of `s` between separators, left to right. */
  function Split(s: string, sep: char): (parts: seq<string>)
    ensures parts != []
  {
    if s == [] then [""]
    else
      var rest := Split(s[1..], sep);
      if s[0] == sep then [""] + rest
      else [[s[0]] + rest[0]] + rest[1..]
  }

  /** No piece of a split holds the separator, and there is one piece more
      than there are separators. */
  lemma {:induction false} SplitPieces(s: string, sep: char)
    ensures |Split(s, sep)| == Count(s, sep) + 1
    ensures forall i :: 0 <= i < |Split(s, sep)| ==> sep !in Split(s, sep)[i]
  {
    if s != [] {
      SplitPieces(s[1..], sep);
      assert s == [s[0]] + s[1..];
      var rest := Split(s[1..], sep);
      if s[0] != sep {
        var parts := Split(s, sep);
        forall i | 0 <= i < |parts| ensures sep !in parts[i] {
          if i > 0 { assert parts[i] == rest[i]; }
        }
      }
    }
  }

  /** `"".join(parts)`: the pieces glued together with nothing between. */
  function Concat(parts: seq<string>): string {
    if parts == [] then "" else parts[0] + Concat(parts[1..])
  }

  /** `sep.join(parts)`. */
  function Join(sep: char, parts: seq<string>): string {
    if parts == [] then ""
    else if |parts| == 1 then parts[0]
    else parts[0] + [sep] + Join(sep, parts[1..])
  }

  /** Gluing a character onto the first piece glues it onto the join. */
  lemma JoinGlueFirst(sep: char, c: char, parts: seq<string>)
    requires parts != []
    ensures Join(sep, [[c] + parts[0]] + parts[1..]) == [c] + Join(sep, parts)
  {
    var glued := [[c] + parts[0]] + parts[1..];
    assert glued[1..] == parts[1..];
  }

  /** Joining the pieces of a split gives back the original string. */
  lemma {:induction false} JoinSplit(s: string, sep: char)
    ensures Join(sep, Split(s, sep)) == s
  {
    if s != [] {
      var rest := Split(s[1..], sep);
      JoinSplit(s[1..], sep);
      assert s == [s[0]] + s[1..];
      if s[0] == sep {
        assert ([""] + rest)[1..] == rest;
      } else {
        JoinGlueFirst(sep, s[0], rest);
      }
    }
  }

  /** A non-separator character in front joins the first piece. */
  lemma SplitConsOther(c: char, t: string, sep: char, first: string, others: seq<string>)
    requires c != sep && Split(t, sep) == [first] + others
    ensures Split([c] + t, sep) == [[c] + first] + others
  {
    assert ([c] + t)[1..] == t;
    assert ([first] + others)[1..] == others;
  }

  /** Splitting a separator-free prefix followed by anything: the prefix is
      glued to the first piece of the rest. */
  lemma {:induction false} SplitFreePrefix(a: string, b: string, sep: char)
    requires sep !in a
    ensures Split(a + b, sep) == [a + Split(b, sep)[0]] + Split(b, sep)[1..]
  {
    var pb := Split(b, sep);
    if a == [] {
      assert a + b == b && a + pb[0] == pb[0];
      assert pb == [pb[0]] + pb[1..];
    } else {
      SplitFreePrefix(a[1..], b, sep);
      SplitConsOther(a[0], a[1..] + b, sep, a[1..] + pb[0], pb[1..]);
      HeadTail(a, b);
      HeadTail(a, pb[0]);
    }
  }

  lemma HeadTail<T>(a: seq<T>, b: seq<T>)
    requires a != []
    ensures a + b == [a[0]] + (a[1..] + b)
  {
  }

  /** Splitting a join of separator-free pieces gives the pieces back. */
  lemma {:induction false} SplitJoin(parts: seq<string>, sep: char)
    requires parts != []
    requires forall i :: 0 <= i < |parts| ==> sep !in parts[i]
    ensures Split(Join(sep, parts), sep) == parts
  {
    if |parts| == 1 {
      SplitFreePrefix(parts[0], "", sep);
      assert parts[0] + "" == parts[0];
    } else {
      var tail := Join(sep, parts[1..]);
      SplitJoin(parts[1..], sep);
      assert Join(sep, parts) == parts[0] + ([sep] + tail);
      SplitFreePrefix(parts[0], [sep] + tail, sep);
      var st := [sep] + tail;
      assert st[0] == sep && st[1..] == tail;
      assert Split(st, sep) == [""] + parts[1..];
      assert parts[0] + "" == parts[0];
      assert parts == [parts[0]] + parts[1..];
    }
  }

  /** The length of a join: every piece plus one separator between each two. */
  lemma {:induction false} JoinLength(sep: char, parts: seq<string>)
    requires parts != []
    ensures |Join(sep, parts)| == SumLengths(parts) + |parts| - 1
  {
    if |parts| > 1 {
      JoinLength(sep, parts[1..]);
    }
  }

  function SumLengths(parts: seq<string>): nat {
    if parts == [] then 0 else |parts[0]| + SumLengths(parts[1..])
  }
}
