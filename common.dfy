/** Helpers shared by the modules of this model: failure-carrying wrappers,
    the handful of string operations the .NET code relies on (ordinal
    StartsWith / EndsWith, character replacement, splitting without empty
    entries, joining) and HTTP status classification. */
module Common {

  datatype Option<T> = None | Some(value: T)

  datatype Result<T, E> = Ok(value: T) | Err(error: E)

  /** An optional setting as a .NET dictionary or nullable string presents it. */
  function Lookup(options: map<string, string>, key: string): (r: Option<string>)
    ensures r.Some? <==> key in options
    ensures r.Some? ==> r.value == options[key]
  {
    if key in options then Some(options[key]) else None
  }

  /** String.StartsWith(p, StringComparison.Ordinal). */
  predicate StartsWith(s: string, p: string) {
    |p| <= |s| && s[..|p|] == p
  }

  /** String.EndsWith(p, StringComparison.Ordinal). */
  predicate EndsWith(s: string, p: string) {
    |p| <= |s| && s[|s| - |p|..] == p
  }

  predicate IsWhiteSpace(c: char) {
    c == ' ' || c == '\t' || c == '\n' || c == '\r' || c == '\U{000B}' || c == '\U{000C}'
  }

  /** String.IsNullOrEmpty, with null as None. */
  predicate IsNullOrEmpty(s: Option<string>) {
    s.None? || s.value == ""
  }

  /** String.IsNullOrWhiteSpace, with null as None. */
  predicate IsNullOrWhiteSpace(s: Option<string>) {
    s.None? || forall i :: 0 <= i < |s.value| ==> IsWhiteSpace(s.value[i])
  }

  /** String.Replace(char, char). */
  function ReplaceChar(s: string, a: char, b: char): (r: string)
    ensures |r| == |s|
    ensures forall i :: 0 <= i < |s| ==> r[i] == (if s[i] == a then b else s[i])
    ensures a != b ==> a !in r
  {
    if s == [] then [] else [if s[0] == a then b else s[0]] + ReplaceChar(s[1..], a, b)
  }

  /** Util.AppendDirSeparator: a separator is appended unless already present. */
  function AppendDirSeparator(s: string): (r: string)
    ensures EndsWith(r, "/")
    ensures r == s || r == s + "/"
    ensures EndsWith(s, "/") <==> r == s
  {
    if EndsWith(s, "/") then s else s + "/"
  }

  /** String.Split(sep, StringSplitOptions.RemoveEmptyEntries). */
  function SplitNonEmpty(s: string, sep: char): (parts: seq<string>)
    ensures forall i :: 0 <= i < |parts| ==> parts[i] != "" && sep !in parts[i]
    decreases |s|
  {
    if s == [] then []
    else if s[0] == sep then SplitNonEmpty(s[1..], sep)
    else
      var n := RunLength(s, sep);
      [s[..n]] + SplitNonEmpty(s[n..], sep)
  }

  /** A character absent from the input is absent from every part. */
  lemma {:induction false} SplitKeepsOut(s: string, sep: char, c: char)
    requires c !in s
    ensures forall i :: 0 <= i < |SplitNonEmpty(s, sep)| ==> c !in SplitNonEmpty(s, sep)[i]
    decreases |s|
  {
    if s != [] {
      if s[0] == sep {
        SplitKeepsOut(s[1..], sep, c);
      } else {
        var n := RunLength(s, sep);
        SplitKeepsOut(s[n..], sep, c);
        assert forall x :: x in s[..n] ==> x in s;
      }
    }
  }

  /** String.Split(sep) keeping empty fields: one more field than there
      are separators. */
  function SplitAll(s: string, sep: char): (fields: seq<string>)
    ensures |fields| >= 1
    ensures forall i :: 0 <= i < |fields| ==> sep !in fields[i]
  {
    if s == [] then [""]
    else if s[0] == sep then [""] + SplitAll(s[1..], sep)
    else
      var rest := SplitAll(s[1..], sep);
      [[s[0]] + rest[0]] + rest[1..]
  }

  /** Joining the fields with the separator gives the string back. */
  lemma {:induction false} SplitAllJoin(s: string, sep: char)
    ensures Join(SplitAll(s, sep), [sep]) == s
  {
    if s != [] {
      var rest := SplitAll(s[1..], sep);
      SplitAllJoin(s[1..], sep);
      if s[0] == sep {
        assert SplitAll(s, sep) == [""] + rest;
        assert ([""] + rest)[1..] == rest;
      } else {
        var fields := [[s[0]] + rest[0]] + rest[1..];
        assert SplitAll(s, sep) == fields;
        if |rest| == 1 {
          assert Join(fields, [sep]) == [s[0]] + rest[0];
        } else {
          assert fields[1..] == rest[1..];
          assert Join(rest, [sep]) == rest[0] + [sep] + Join(rest[1..], [sep]);
        }
      }
    }
  }

  /** Replacing every `sep` by `t` (String.Replace), read as split and
      join: the first character either becomes `t` or stays, in front of
      the replacement of the rest. */
  lemma {:induction false} SplitJoinStep(s: string, sep: char, t: string)
    requires s != []
    ensures Join(SplitAll(s, sep), t)
      == (if s[0] == sep then t else [s[0]]) + Join(SplitAll(s[1..], sep), t)
  {
    var rest := SplitAll(s[1..], sep);
    if s[0] == sep {
      assert SplitAll(s, sep) == [""] + rest;
      assert ([""] + rest)[1..] == rest;
    } else {
      var fields := [[s[0]] + rest[0]] + rest[1..];
      assert SplitAll(s, sep) == fields;
      if |rest| > 1 {
        assert fields[1..] == rest[1..];
      }
    }
  }

  predicate IsDigit(c: char) { '0' <= c <= '9' }

  /** The value of a string of decimal digits. */
  function DigitsValue(s: string): (n: nat)
    requires forall i :: 0 <= i < |s| ==> IsDigit(s[i])
  {
    if s == [] then 0
    else
      assert IsDigit(s[|s| - 1]);
      DigitsValue(s[..|s| - 1]) * 10 + (s[|s| - 1] as int - '0' as int)
  }

  /** long.Parse on plain decimal digits; anything else is a format error. */
  function ParseNat(s: string): (r: Option<nat>)
    ensures r.Some? <==> s != "" && forall i :: 0 <= i < |s| ==> IsDigit(s[i])
  {
    if s != "" && forall i :: 0 <= i < |s| ==> IsDigit(s[i]) then Some(DigitsValue(s)) else None
  }

  /** Length of the leading run of characters other than `sep`. */
  function RunLength(s: string, sep: char): (n: nat)
    ensures n <= |s|
    ensures forall i :: 0 <= i < n ==> s[i] != sep
    ensures n < |s| ==> s[n] == sep
  {
    if s == [] || s[0] == sep then 0 else 1 + RunLength(s[1..], sep)
  }

  /** String.Join(sep, parts). */
  function Join(parts: seq<string>, sep: string): (r: string)
  {
    if parts == [] then ""
    else if |parts| == 1 then parts[0]
    else parts[0] + sep + Join(parts[1..], sep)
  }

  /** HttpResponseMessage.IsSuccessStatusCode. */
  predicate IsSuccessStatus(code: int) {
    200 <= code <= 299
  }

  /** Math.Min / Math.Max on integers. */
  function Min(a: int, b: int): int { if a <= b then a else b }
  function Max(a: int, b: int): int { if a >= b then a else b }

  /** C# integer division, which truncates toward zero (Dafny's `/` is Euclidean). */
  function TruncDiv(a: int, b: int): (q: int)
    requires b > 0
    ensures a >= 0 ==> q == a / b
    ensures q * b <= a < q * b + b || (a < 0 && q * b - b < a <= q * b)
  {
    if a >= 0 then a / b else -((-a) / b)
  }

  /** The inclusive byte range first-last of a Content-Range header
      (section 4.2 of RFC 7233). */
  datatype Span = Span(first: int, last: int)

  /** The spans cover start..end-1 in order, without gap or overlap. */
  predicate Tiles(spans: seq<Span>, start: int, end: int)
    decreases |spans|
  {
    if spans == [] then start == end
    else
      spans[0].first == start && spans[0].first <= spans[0].last
      && Tiles(spans[1..], spans[0].last + 1, end)
  }

  /** A span that starts where the tiling stops extends it. */
  lemma {:induction false} TilesSnoc(spans: seq<Span>, start: int, end: int, next: Span)
    requires Tiles(spans, start, end) && next.first == end && end <= next.last
    ensures Tiles(spans + [next], start, next.last + 1)
    decreases |spans|
  {
    if spans == [] {
      assert spans + [next] == [next];
    } else {
      TilesSnoc(spans[1..], spans[0].last + 1, end, next);
      assert (spans + [next])[1..] == spans[1..] + [next];
    }
  }

  /** Tiling spans add up to the length they cover. */
  lemma {:induction false} TilesLength(spans: seq<Span>, start: int, end: int)
    requires Tiles(spans, start, end)
    ensures start <= end && SpanTotal(spans) == end - start
    decreases |spans|
  {
    if spans != [] {
      TilesLength(spans[1..], spans[0].last + 1, end);
    }
  }

  function SpanTotal(spans: seq<Span>): int {
    if spans == [] then 0 else spans[0].last - spans[0].first + 1 + SpanTotal(spans[1..])
  }

  /** 2^n, for the integer exponent of the exponential back-off delays. */
  function Pow2(n: nat): (r: nat)
    ensures r >= 1
  {
    if n == 0 then 1 else 2 * Pow2(n - 1)
  }

  /** ASCII case folding, the part of OrdinalIgnoreCase this model needs. */
  function LowerChar(c: char): char {
    if 'A' <= c <= 'Z' then (c as int + 32) as char else c
  }

  function Lower(s: string): (r: string)
    ensures |r| == |s|
    ensures forall i :: 0 <= i < |s| ==> r[i] == LowerChar(s[i])
  {
    if s == [] then [] else [LowerChar(s[0])] + Lower(s[1..])
  }

  /** String.Equals(a, b, StringComparison.OrdinalIgnoreCase), ASCII letters only. */
  predicate EqualsIgnoreCase(a: string, b: string) {
    Lower(a) == Lower(b)
  }

  /** The index of the first element satisfying `p` (Enumerable.FirstOrDefault). */
  function FirstIndex<T>(xs: seq<T>, p: T -> bool): (r: Option<nat>)
    ensures r.Some? ==> r.value < |xs| && p(xs[r.value]) && forall j :: 0 <= j < r.value ==> !p(xs[j])
    ensures r.None? ==> forall j :: 0 <= j < |xs| ==> !p(xs[j])
  {
    if xs == [] then None
    else if p(xs[0]) then Some(0)
    else
      var r := FirstIndex(xs[1..], p);
      assert forall j :: 1 <= j < |xs| ==> xs[j] == xs[1..][j - 1];
      if r.Some? then Some(r.value + 1) else None
  }

  /** The ordering of a nullable date: null sorts before every date. */
  predicate Earlier(a: Option<int>, b: Option<int>) {
    (a.None? && b.Some?) || (a.Some? && b.Some? && a.value < b.value)
  }

  /** The position OrderByDescending(date).First() picks: a latest date,
      and the first of the ties (the sort is stable). */
  function NewestIndex<T>(xs: seq<T>, date: T -> Option<int>): (i: nat)
    requires xs != []
    ensures i < |xs|
    ensures forall j :: 0 <= j < |xs| ==> !Earlier(date(xs[i]), date(xs[j]))
    ensures forall j :: 0 <= j < i ==> Earlier(date(xs[j]), date(xs[i]))
  {
    if |xs| == 1 then 0
    else
      var k := NewestIndex(xs[1..], date);
      assert forall j :: 1 <= j < |xs| ==> xs[j] == xs[1..][j - 1];
      if Earlier(date(xs[0]), date(xs[k + 1])) then k + 1 else 0
  }

  /** String.Join(sep, parts) ends with the separator and the last part. */
  lemma {:induction false} JoinEndsWith(parts: seq<string>, sep: string)
    requires |parts| >= 2
    ensures EndsWith(Join(parts, sep), sep + parts[|parts| - 1])
  {
    var last := sep + parts[|parts| - 1];
    if |parts| > 2 {
      JoinEndsWith(parts[1..], sep);
      var rest := Join(parts[1..], sep);
      assert Join(parts, sep) == parts[0] + sep + rest;
      assert (parts[0] + sep + rest)[|parts[0] + sep + rest| - |last|..] == rest[|rest| - |last|..];
    } else {
      assert Join(parts[1..], sep) == parts[1];
    }
  }

}
