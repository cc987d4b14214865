/** Strings of Unicode characters, as src/types.rs sees them. */
module Text {
  /** Rust's `char::is_whitespace`. */
  predicate IsWhite(c: char) {
    || 0x09 <= c as int <= 0x0D
    || c as int in {0x20, 0x85, 0xA0, 0x1680, 0x2028, 0x2029, 0x202F, 0x205F, 0x3000}
    || 0x2000 <= c as int <= 0x200A
  }

  function TrimStart(s: string): string {
    if s != "" && IsWhite(s[0]) then TrimStart(s[1..]) else s
  }

  function TrimEnd(s: string): string {
    if s != "" && IsWhite(s[|s| - 1]) then TrimEnd(s[..|s| - 1]) else s
  }

  function Trim(s: string): string { TrimEnd(TrimStart(s)) }

  /** A string with no white edge is its own trimming. */
  lemma TrimNothing(s: string)
    requires s != "" ==> !IsWhite(s[0]) && !IsWhite(s[|s| - 1])
    ensures Trim(s) == s
  {
  }

  /** Trimming cuts a string down to a part with no white edge. */
  lemma TrimIsPart(s: string) returns (a: nat, b: nat)
    ensures a <= b <= |s| && Trim(s) == s[a..b]
    ensures Trim(s) != "" ==> !IsWhite(Trim(s)[0]) && !IsWhite(Trim(s)[|Trim(s)| - 1])
  {
    a := StartIsPart(s);
    var t := s[a..];
    var n := EndIsPart(t);
    b := a + n;
    assert t[..n] == s[a..b];
  }

  lemma {:induction false} StartIsPart(s: string) returns (a: nat)
    ensures a <= |s| && TrimStart(s) == s[a..]
    ensures a < |s| ==> !IsWhite(s[a])
  {
    if s != "" && IsWhite(s[0]) {
      var rest := StartIsPart(s[1..]);
      a := rest + 1;
      assert s[1..][rest..] == s[a..];
    } else {
      a := 0;
      assert s[0..] == s;
    }
  }

  lemma {:induction false} EndIsPart(s: string) returns (n: nat)
    ensures n <= |s| && TrimEnd(s) == s[..n]
    ensures n > 0 ==> !IsWhite(s[n - 1])
  {
    if s != "" && IsWhite(s[|s| - 1]) {
      n := EndIsPart(s[..|s| - 1]);
      assert s[..|s| - 1][..n] == s[..n];
    } else {
      n := |s|;
      assert s[..n] == s;
    }
  }

  function Repeat(c: char, n: nat): (s: string)
    ensures |s| == n && forall i :: 0 <= i < n ==> s[i] == c
  {
    if n == 0 then "" else Repeat(c, n - 1) + [c]
  }

  /** The characters that are white. */
  lemma WhiteExactly(c: char)
    ensures IsWhite(c) <==> c as int in {
      0x09, 0x0A, 0x0B, 0x0C, 0x0D, 0x20, 0x85, 0xA0, 0x1680, 0x2000, 0x2001, 0x2002, 0x2003, 0x2004, 0x2005,
      0x2006, 0x2007, 0x2008, 0x2009, 0x200A, 0x2028, 0x2029, 0x202F, 0x205F, 0x3000}
  {
  }

  predicate AllWhite(s: string) { forall i :: 0 <= i < |s| ==> IsWhite(s[i]) }

  lemma {:induction false} StartDropped(w: string, s: string)
    requires AllWhite(w) && (s == "" || !IsWhite(s[0]))
    ensures TrimStart(w + s) == s
  {
    if w == "" {
      assert w + s == s;
    } else {
      assert (w + s)[0] == w[0] && (w + s)[1..] == w[1..] + s;
      StartDropped(w[1..], s);
    }
  }

  lemma {:induction false} EndDropped(s: string, w: string)
    requires AllWhite(w) && (s == "" || !IsWhite(s[|s| - 1]))
    ensures TrimEnd(s + w) == s
  {
    if w == "" {
      assert s + w == s;
    } else {
      var n := |w| - 1;
      assert (s + w)[|s + w| - 1] == w[n] && (s + w)[..|s + w| - 1] == s + w[..n];
      EndDropped(s, w[..n]);
    }
  }

  /** Trimming takes white characters off both ends, and nothing else. */
  lemma TrimExactly(before: string, s: string, after: string)
    requires AllWhite(before) && AllWhite(after)
    requires s != "" && !IsWhite(s[0]) && !IsWhite(s[|s| - 1])
    ensures Trim(before + s + after) == s
  {
    assert (s + after)[0] == s[0] && before + s + after == before + (s + after);
    StartDropped(before, s + after);
    EndDropped(s, after);
  }
}
