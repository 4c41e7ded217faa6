/** The parts of Rust's `str`/`String` API that the source relies on, over
    `string` (a sequence of Unicode scalar values): `usize::to_string`,
    `str::replace`, `str::trim`, `[String]::join("")`, `str::cmp` and
    `str::rfind`. */
module Text {
  import opened Wrappers

  // ---------------------------------------------------------------------------
  // usize::to_string
  // ---------------------------------------------------------------------------

  function Digit(d: nat): (c: char)
    requires d < 10
  {
    (48 + d) as char
  }

  /** Decimal rendering of `n` without leading zeros. */
  function NatToString(n: nat): (s: string)
    ensures |s| >= 1
    ensures n < 10 <==> |s| == 1
    decreases n
  {
    if n < 10 then [Digit(n)] else NatToString(n / 10) + [Digit(n % 10)]
  }

  /** Distinct numbers render to distinct strings, so the indexed form keys
      `publishedfileids[i]` and the folder suffixes `_i` never collide. */
  lemma {:induction false} NatToStringInjective(a: nat, b: nat)
    requires NatToString(a) == NatToString(b)
    ensures a == b
    decreases a
  {
    var s := NatToString(a);
    if a < 10 {
      assert (Digit(a) as int) == (Digit(b) as int);
    } else {
      var sa, sb := NatToString(a / 10), NatToString(b / 10);
      assert s == sa + [Digit(a % 10)] && s == sb + [Digit(b % 10)];
      assert s[|s| - 1] == Digit(a % 10) == Digit(b % 10);
      assert (Digit(a % 10) as int) == (Digit(b % 10) as int);
      assert sa == s[..|s| - 1] == sb;
      NatToStringInjective(a / 10, b / 10);
    }
  }

  // ---------------------------------------------------------------------------
  // str::replace
  // ---------------------------------------------------------------------------

  /** Every non-overlapping occurrence of `pat`, scanned left to right, is
      replaced by `rep` (Rust's `str::replace`). */
  function ReplaceAll(s: string, pat: string, rep: string): (r: string)
    requires pat != []
    decreases |s|
  {
    if |s| < |pat| then s
    else if s[..|pat|] == pat then rep + ReplaceAll(s[|pat|..], pat, rep)
    else [s[0]] + ReplaceAll(s[1..], pat, rep)
  }

  /** With a one-character pattern and replacement, `replace` maps each
      character on its own and keeps the length. */
  lemma {:induction false} ReplaceCharAt(s: string, pat: char, rep: char)
    ensures |ReplaceAll(s, [pat], [rep])| == |s|
    ensures forall i :: 0 <= i < |s| ==>
      ReplaceAll(s, [pat], [rep])[i] == (if s[i] == pat then rep else s[i])
  {
    if s != [] {
      ReplaceCharAt(s[1..], pat, rep);
      assert s[..1] == [s[0]];
    }
  }

  /** Text that cannot start an occurrence of `pat` passes through unchanged. */
  lemma {:induction false} ReplaceAllPrefixKept(s: string, t: string, pat: string, rep: string)
    requires pat != [] && pat[0] !in s
    ensures ReplaceAll(s + t, pat, rep) == s + ReplaceAll(t, pat, rep)
  {
    if s != [] {
      var st := s + t;
      assert st[1..] == s[1..] + t;
      ReplaceAllPrefixKept(s[1..], t, pat, rep);
      if |st| >= |pat| {
        assert st[..|pat|][0] == s[0] != pat[0];
        assert ReplaceAll(st, pat, rep) == [s[0]] + ReplaceAll(s[1..] + t, pat, rep);
        assert s == [s[0]] + s[1..];
      } else {
        // st is too short to hold pat, and so is t
        assert ReplaceAll(t, pat, rep) == t;
      }
    } else {
      assert s + t == t;
    }
  }

  // ---------------------------------------------------------------------------
  // str::trim
  // ---------------------------------------------------------------------------

  /** Rust's `char::is_whitespace`: the Unicode White_Space property. */
  predicate IsWhitespace(c: char) {
    c == ' ' || ('\t' <= c <= '\r') || c == '\U{85}' || c == '\U{A0}' || c == '\U{1680}'
    || ('\U{2000}' <= c <= '\U{200A}') || c == '\U{2028}' || c == '\U{2029}'
    || c == '\U{202F}' || c == '\U{205F}' || c == '\U{3000}'
  }

  function TrimStart(s: string): (r: string)
    ensures |r| <= |s| && r == s[|s| - |r|..]
    ensures forall i :: 0 <= i < |s| - |r| ==> IsWhitespace(s[i])
    ensures r != [] ==> !IsWhitespace(r[0])
  {
    if s != [] && IsWhitespace(s[0]) then TrimStart(s[1..]) else s
  }

  function TrimEnd(s: string): (r: string)
    ensures |r| <= |s| && r == s[..|r|]
    ensures forall i :: |r| <= i < |s| ==> IsWhitespace(s[i])
    ensures r != [] ==> !IsWhitespace(r[|r| - 1])
  {
    if s != [] && IsWhitespace(s[|s| - 1]) then TrimEnd(s[..|s| - 1]) else s
  }

  /** `str::trim`: the slice of `s` left after removing leading and trailing
      whitespace. */
  function Trim(s: string): (r: string)
    ensures exists i, j ::
      (0 <= i <= j <= |s| && r == s[i..j]
       && (forall k :: 0 <= k < i ==> IsWhitespace(s[k]))
       && (forall k :: j <= k < |s| ==> IsWhitespace(s[k])))
    ensures r != [] ==> !IsWhitespace(r[0]) && !IsWhitespace(r[|r| - 1])
  {
    var t := TrimStart(s);
    var r := TrimEnd(t);
    assert r == s[|s| - |t|..|s| - |t| + |r|];
    r
  }

  // ---------------------------------------------------------------------------
  // [String]::join("")
  // ---------------------------------------------------------------------------

  function Concat(lines: seq<string>): (r: string)
    ensures lines == [] ==> r == []
    ensures |lines| == 1 ==> r == lines[0]
  {
    if lines == [] then [] else lines[0] + Concat(lines[1..])
  }

  /** The joined text is empty exactly when every line is. */
  lemma {:induction false} ConcatEmpty(lines: seq<string>)
    ensures Concat(lines) == [] <==> forall i :: 0 <= i < |lines| ==> lines[i] == []
  {
    if lines != [] {
      ConcatEmpty(lines[1..]);
      assert forall i :: 1 <= i < |lines| ==> lines[i] == lines[1..][i - 1];
    }
  }

  /** `(!s.is_empty()).then_some(s)`. */
  function NonEmpty(s: string): (r: Option<string>)
    ensures r.None? <==> s == []
    ensures r.Some? ==> r.value == s
  {
    if s == [] then None else Some(s)
  }

  /** A text field initialised with `unwrap_or_default()` and read back with
      `NonEmpty` returns the original value, unless that was `Some("")`. */
  lemma NonEmptyRoundTrip(x: Option<string>)
    requires x != Some([])
    ensures NonEmpty(x.GetOr([])) == x
  {
  }

  // ---------------------------------------------------------------------------
  // str::cmp (lexicographic by scalar value, which is the UTF-8 byte order)
  // ---------------------------------------------------------------------------

  predicate StrLe(a: string, b: string)
    decreases |a|
  {
    a == [] || (b != [] && (a[0] < b[0] || (a[0] == b[0] && StrLe(a[1..], b[1..]))))
  }

  lemma {:induction false} StrLeTotal(a: string, b: string)
    ensures StrLe(a, b) || StrLe(b, a)
    decreases |a|
  {
    if a != [] && b != [] && a[0] == b[0] {
      StrLeTotal(a[1..], b[1..]);
    }
  }

  lemma {:induction false} StrLeTransitive(a: string, b: string, c: string)
    requires StrLe(a, b) && StrLe(b, c)
    ensures StrLe(a, c)
    decreases |a|
  {
    if a != [] && a[0] == b[0] && b[0] == c[0] {
      StrLeTransitive(a[1..], b[1..], c[1..]);
    }
  }

  // ---------------------------------------------------------------------------
  // str::rfind for a single character
  // ---------------------------------------------------------------------------

  function LastIndexOf(s: string, c: char): (r: Option<nat>)
    ensures r.Some? ==> r.value < |s| && s[r.value] == c && c !in s[r.value + 1..]
    ensures r.None? ==> c !in s
  {
    if s == [] then None
    else if s[|s| - 1] == c then Some(|s| - 1)
    else
      var r := LastIndexOf(s[..|s| - 1], c);
      assert s == s[..|s| - 1] + [s[|s| - 1]];
      r
  }

  /** The last occurrence of `c` is the one not followed by another. */
  lemma {:induction false} LastIndexOfAfter(a: string, c: char, b: string)
    requires c !in b
    ensures LastIndexOf(a + [c] + b, c) == Some(|a|)
    decreases |b|
  {
    var s := a + [c] + b;
    if b == [] {
      assert s[..|s| - 1] + [s[|s| - 1]] == s;
    } else {
      assert s[|s| - 1] == b[|b| - 1];
      assert s[..|s| - 1] == a + [c] + b[..|b| - 1];
      LastIndexOfAfter(a, c, b[..|b| - 1]);
    }
  }
}
