/**
 * The few operations of Go's `strings` package that the converters use,
 * on strings seen as sequences of code points.
 */
module GoStrings {

  /** `strings.ReplaceAll(s, string(c), to)`: every occurrence of `c` becomes `to`. */
  function ReplaceAll(s: string, c: char, to: string): (r: string)
    ensures c !in s ==> r == s
    ensures |to| == 1 ==> |r| == |s|
  {
    if |s| == 0 then ""
    else (if s[0] == c then to else [s[0]]) + ReplaceAll(s[1..], c, to)
  }

  lemma {:induction false} ReplaceAllConcat(a: string, b: string, c: char, to: string)
    ensures ReplaceAll(a + b, c, to) == ReplaceAll(a, c, to) + ReplaceAll(b, c, to)
  {
    if |a| > 0 {
      var head := if a[0] == c then to else [a[0]];
      assert (a + b)[0] == a[0] && (a + b)[1..] == a[1..] + b;
      assert ReplaceAll(a + b, c, to) == head + ReplaceAll(a[1..] + b, c, to);
      ReplaceAllConcat(a[1..], b, c, to);
      assert ReplaceAll(a, c, to) == head + ReplaceAll(a[1..], c, to);
    } else {
      assert a + b == b;
    }
  }

  /** The position of the first `c` in `s`. */
  function IndexOf(s: string, c: char): (i: nat)
    requires c in s
    ensures i < |s| && s[i] == c && c !in s[..i]
  {
    if s[0] == c then 0
    else
      assert s == [s[0]] + s[1..];
      1 + IndexOf(s[1..], c)
  }

  /** The first `c` is the one right after a prefix without `c`. */
  lemma {:induction false} IndexOfAfterPrefix(d: string, z: string, c: char)
    requires c !in d
    ensures IndexOf(d + [c] + z, c) == |d|
  {
    if |d| > 0 {
      assert (d + [c] + z)[1..] == d[1..] + [c] + z;
      IndexOfAfterPrefix(d[1..], z, c);
    }
  }

  /**
   * `strings.Split(s, string(sep))`: the pieces between the occurrences of
   * `sep`; there is always one more piece than there are separators, so the
   * empty string splits into one empty piece.
   */
  function Split(s: string, sep: char): (parts: seq<string>)
    ensures |parts| >= 1
    decreases |s|
  {
    if sep !in s then [s]
    else
      var i := IndexOf(s, sep);
      [s[..i]] + Split(s[i + 1..], sep)
  }

  /** The parts joined by `sep`, for a nonempty list: how the interval formatter
   * renders its comma-separated `fmt.Sprintf` fields. */
  function Join(parts: seq<string>, sep: char): string
    requires |parts| >= 1
  {
    if |parts| == 1 then parts[0] else parts[0] + [sep] + Join(parts[1..], sep)
  }

  /** Splitting what was joined gives the parts back, when no part holds the separator. */
  lemma {:induction false} SplitJoin(parts: seq<string>, sep: char)
    requires |parts| >= 1
    requires forall k :: 0 <= k < |parts| ==> sep !in parts[k]
    ensures Split(Join(parts, sep), sep) == parts
  {
    if |parts| > 1 {
      var s := Join(parts, sep);
      var rest := Join(parts[1..], sep);
      assert s == parts[0] + [sep] + rest;
      IndexOfAfterPrefix(parts[0], rest, sep);
      var i := |parts[0]|;
      assert s[i] == sep;
      assert s[..i] == parts[0];
      assert s[i + 1..] == rest;
      SplitJoin(parts[1..], sep);
      assert parts == [parts[0]] + parts[1..];
    }
  }

  /** `strings.Cut(s, string(sep))`: the text before and after the first `sep`, if any. */
  function Cut(s: string, sep: char): (r: (string, string, bool))
    ensures r.2 <==> sep in s
    ensures r.2 ==> s == r.0 + [sep] + r.1 && sep !in r.0
    ensures !r.2 ==> r.0 == s && r.1 == ""
  {
    if sep in s then
      var i := IndexOf(s, sep);
      assert s == s[..i] + [sep] + s[i + 1..];
      (s[..i], s[i + 1..], true)
    else (s, "", false)
  }
}
