// itoa_internal, atoi and memmove of libc.c.
module LibcNumbers {
  import opened TgcLexer

  /** remainder < 10 ? remainder + '0' : remainder + 'a' - 10 */
  function DigitOf(r: nat): char
    requires r < 16
  {
    if r < 10 then r as char + '0' else (r - 10) as char + 'a'
  }

  /** The bases itoa_internal is called with. */
  datatype Base = Ten | Sixteen

  function Value(b: Base): nat { if b == Ten then 10 else 16 }

  /** u % base and u / base */
  function Rem(u: nat, b: Base): (r: nat)
    ensures r < Value(b)
  {
    if b == Ten then u % 10 else u % 16
  }

  function Quot(u: nat, b: Base): (q: nat)
    ensures (q == 0 <==> u < Value(b)) && (u > 0 ==> q < u)
  {
    if b == Ten then u / 10 else u / 16
  }

  /** The digits of u, most significant first. */
  function Numeral(u: nat, b: Base): (w: string)
    ensures w != ""
  {
    if Quot(u, b) == 0 then [DigitOf(u)] else Numeral(Quot(u, b), b) + [DigitOf(Rem(u, b))]
  }

  /** What itoa_internal writes. */
  function Text(d: int, b: Base): string
    requires b == Ten || d >= 0
  {
    if d < 0 then "-" + Numeral(-d, b) else Numeral(d, b)
  }

  function Reversed(w: string): (r: string)
    ensures |r| == |w|
  {
    if w == "" then "" else Reversed(w[1..]) + [w[0]]
  }

  lemma {:induction false} ReversedAt(w: string, k: nat)
    requires k < |w|
    ensures Reversed(w)[k] == w[|w| - 1 - k]
  {
    if k < |w| - 1 { ReversedAt(w[1..], k); }
  }

  /** The digits found after the ones in w, least significant first: together they make the
      numeral. */
  lemma DigitStep(w: string, u: nat, b: Base, text: string)
    requires Numeral(u, b) + Reversed(w) == text
    ensures var now := Reversed(w + [DigitOf(Rem(u, b))]);
            |w| < |text| && (if Quot(u, b) == 0 then now else Numeral(Quot(u, b), b) + now) == text
  {
    NumeralLast(u, b);
    var c := DigitOf(Rem(u, b));
    if Quot(u, b) == 0 {
      assert [] + [c] == [c];
      DigitJoins(w, c, [], text);
    } else {
      DigitJoins(w, c, Numeral(Quot(u, b), b), text);
    }
  }

  lemma NumeralLast(u: nat, b: Base)
    ensures Numeral(u, b) == (if Quot(u, b) == 0 then [] else Numeral(Quot(u, b), b)) + [DigitOf(Rem(u, b))]
  {
    if u < Value(b) { assert Rem(u, b) == u; }
  }

  lemma DigitJoins(w: string, c: char, head: string, text: string)
    requires (head + [c]) + Reversed(w) == text
    ensures head + Reversed(w + [c]) == text && |w| < |text|
  {
    ReversedSnoc(w, c);
    Regroup(head, [c], Reversed(w));
  }

  lemma Regroup(a: string, b: string, c: string)
    ensures a + (b + c) == (a + b) + c
  {
  }

  lemma {:induction false} ReversedSnoc(w: string, c: char)
    ensures Reversed(w + [c]) == [c] + Reversed(w)
  {
    if w == "" {
      assert "" + [c] == [c];
      assert Reversed([c]) == Reversed([c][1..]) + [c];
    } else {
      assert (w + [c])[1..] == w[1..] + [c];
      ReversedSnoc(w[1..], c);
    }
  }

  lemma Pieces(s: string, lo: nat, hi: nat, a: string, b: string, c: string)
    requires lo <= hi <= |s| && |a| == lo && |b| == hi - lo && |c| == |s| - hi
    requires forall k :: 0 <= k < lo ==> s[k] == a[k]
    requires forall k :: 0 <= k < hi - lo ==> s[lo + k] == b[k]
    requires forall k :: hi <= k < |s| ==> s[k] == c[k - hi]
    ensures s == a + b + c
  {
    forall k | 0 <= k < |s| ensures s[k] == (a + b + c)[k] {
      if lo <= k < hi { assert s[lo + (k - lo)] == b[k - lo]; }
    }
  }

  /** The loop that turns the digits round, in place. */
  method ReverseInPlace(buf: array<char>, lo: nat, hi: nat)
    requires lo <= hi <= buf.Length
    modifies buf
    ensures buf[..] == old(buf[..lo]) + Reversed(old(buf[lo..hi])) + old(buf[hi..])
  {
    var p1, p2 := lo, hi - 1;
    while p1 < p2
      invariant lo <= p1 <= p2 + 1 <= hi && p1 - lo == hi - 1 - p2
      invariant forall k :: 0 <= k < buf.Length ==>
        buf[k] == if lo <= k < p1 || p2 < k < hi then old(buf[lo + hi - 1 - k]) else old(buf[k])
      decreases p2 - p1
    {
      buf[p1], buf[p2] := buf[p2], buf[p1];
      p1, p2 := p1 + 1, p2 - 1;
    }
    ghost var w := old(buf[lo..hi]);
    forall k | 0 <= k < |w| ensures buf[lo + k] == Reversed(w)[k] {
      ReversedAt(w, k);
    }
    Pieces(buf[..], lo, hi, old(buf[..lo]), Reversed(w), old(buf[hi..]));
  }

  /** itoa_internal: the text of d, and a NUL. */
  method Itoa(buf: array<char>, base: Base, d: int) returns (n: nat)
    requires (base == Ten || d >= 0) && |Text(d, base)| < buf.Length
    modifies buf
    ensures n == |Text(d, base)| && buf[..n] == Text(d, base) && buf[n] == '\0'
  {
    var ud: nat := if d < 0 then -d else d;
    var start := 0;
    if d < 0 {
      buf[0] := '-';
      start := 1;
    }
    ghost var sign := buf[..start];
    assert Text(d, base) == sign + Numeral(ud, base);
    n := PutDigits(buf, start, base, ud);
    buf[n] := '\0';
    ghost var w := buf[start..n];
    ReverseInPlace(buf, start, n);
    assert buf[..n] == sign + Reversed(w);
  }

  /** The loop that puts down the digits, least significant first. */
  method PutDigits(buf: array<char>, start: nat, base: Base, u: nat) returns (p: nat)
    requires start + |Numeral(u, base)| < buf.Length
    modifies buf
    ensures p == start + |Numeral(u, base)| && buf[..start] == old(buf[..start])
    ensures Reversed(buf[start..p]) == Numeral(u, base)
  {
    p := start;
    var ud, more := u, true;
    ghost var w, text := "", Numeral(u, base);
    while more
      invariant start <= p < buf.Length && buf[..start] == old(buf[..start]) && buf[start..p] == w
      invariant (if more then Numeral(ud, base) + Reversed(w) else Reversed(w)) == text
      decreases more, ud
    {
      DigitStep(w, ud, base, text);
      w := w + [DigitOf(Rem(ud, base))];
      buf[p] := DigitOf(Rem(ud, base));
      p := p + 1;
      ud := Quot(ud, base);
      more := ud != 0;
    }
  }

  // ---------------------------------------------------------------------------
  // atoi

  predicate IsSpace(c: char) {
    c == ' ' || c == '\t' || c == '\n' || c == '\r' || c == '\U{c}' || c == '\U{b}'
  }

  function SpacesEnd(s: string, i: nat): (j: nat)
    requires i <= |s|
    ensures i <= j <= |s|
    decreases |s| - i
  {
    if i < |s| && IsSpace(s[i]) then SpacesEnd(s, i + 1) else i
  }

  /** Spaces, an optional sign, digits; the rest is ignored. */
  function AtoiOf(s: string): int {
    var i := SpacesEnd(s, 0);
    var j := if Ch(s, i) == '-' || Ch(s, i) == '+' then i + 1 else i;
    var v := Decimal(s[j..DigitsEnd(s, j)]);
    if Ch(s, i) == '-' then -v else v
  }

  method Atoi(s: string) returns (r: int)
    ensures r == AtoiOf(s)
  {
    var i := 0;
    while IsSpace(Ch(s, i))
      invariant i <= |s| && SpacesEnd(s, i) == SpacesEnd(s, 0)
      decreases Ahead(s, i)
    {
      i := i + 1;
    }
    var sign := 1;
    if Ch(s, i) == '-' {
      sign := -1;
      i := i + 1;
    } else if Ch(s, i) == '+' {
      i := i + 1;
    }
    var res := ReadDigits(s, i);
    r := res * sign;
  }

  method ReadDigits(s: string, j: nat) returns (res: int)
    requires j <= |s|
    ensures res == Decimal(s[j..DigitsEnd(s, j)])
  {
    var i := j;
    res := 0;
    while Digit(Ch(s, i))
      invariant j <= i <= |s| && DigitsEnd(s, i) == DigitsEnd(s, j) && res == Decimal(s[j..i])
      decreases Ahead(s, i)
    {
      assert s[j..i + 1][..i - j] == s[j..i];
      res := res * 10 + DigitValue(Ch(s, i));
      i := i + 1;
    }
  }

  lemma {:induction false} NumeralValue(u: nat)
    ensures AllDigits(Numeral(u, Ten)) && Decimal(Numeral(u, Ten)) == u
  {
    var w := Numeral(u, Ten);
    if u < 10 {
      assert w[..0] == "";
    } else {
      NumeralValue(u / 10);
      assert w[..|w| - 1] == Numeral(u / 10, Ten);
    }
  }

  lemma {:induction false} DigitsRunOut(s: string, i: nat, j: nat)
    requires i <= j <= |s| && AllDigits(s[i..j]) && !Digit(Ch(s, j))
    ensures DigitsEnd(s, i) == j
    decreases j - i
  {
    if i < j {
      assert s[i] == s[i..j][0];
      assert s[i + 1..j] == s[i..j][1..];
      DigitsRunOut(s, i + 1, j);
    }
  }

  /** Reading back what was written gives the number, whatever white space precedes it and
      whatever but a digit follows it. */
  lemma NumberRoundTrip(d: int, spaces: string, rest: string)
    requires (forall k :: 0 <= k < |spaces| ==> IsSpace(spaces[k])) && !Digit(Ch(rest, 0))
    ensures AtoiOf(spaces + Text(d, Ten) + rest) == d
  {
    var u: nat := if d < 0 then -d else d;
    var w := Numeral(u, Ten);
    var s := spaces + Text(d, Ten) + rest;
    NumeralValue(u);
    assert Digit(w[0]);
    SpacesRunOut(s, 0, |spaces|);
    var j := if d < 0 then |spaces| + 1 else |spaces|;
    assert s[j..j + |w|] == w;
    assert s[j + |w|..] == rest;
    assert Ch(s, j + |w|) == Ch(rest, 0);
    assert Ch(s, |spaces|) == if d < 0 then '-' else w[0];
    DigitsRunOut(s, j, j + |w|);
  }

  lemma {:induction false} SpacesRunOut(s: string, i: nat, j: nat)
    requires i <= j < |s| && (forall k :: i <= k < j ==> IsSpace(s[k])) && !IsSpace(s[j])
    ensures SpacesEnd(s, i) == j
    decreases j - i
  {
    if i < j { SpacesRunOut(s, i + 1, j); }
  }

  // ---------------------------------------------------------------------------
  // memmove

  /** Copies n bytes, in the direction that is safe when the areas overlap. */
  method Memmove(a: array<char>, d: nat, s: nat, n: nat)
    requires d + n <= a.Length && s + n <= a.Length
    modifies a
    ensures Copied(old(a[..]), a[..], d, s, n)
  {
    if d < s {
      CopyUp(a, d, s, n);
    } else {
      CopyDown(a, d, s, n);
    }
  }

  /** The n characters at d are those that were at s; the rest is as it was. */
  ghost predicate Copied(before: string, after: string, d: nat, s: nat, n: nat) {
    && |after| == |before| && d + n <= |before| && s + n <= |before|
    && forall k :: 0 <= k < |after| ==> after[k] == before[if d <= k < d + n then s + (k - d) else k]
  }

  method CopyUp(a: array<char>, d: nat, s: nat, n: nat)
    requires d < s && d + n <= a.Length && s + n <= a.Length
    modifies a
    ensures Copied(old(a[..]), a[..], d, s, n)
  {
    var i := 0;
    while i < n
      invariant 0 <= i <= n && Copied(old(a[..]), a[..], d, s, i)
    {
      a[d + i] := a[s + i];
      i := i + 1;
    }
  }

  method CopyDown(a: array<char>, d: nat, s: nat, n: nat)
    requires d >= s && d + n <= a.Length && s + n <= a.Length
    modifies a
    ensures Copied(old(a[..]), a[..], d, s, n)
  {
    var i := n;
    while i > 0
      invariant 0 <= i <= n && Copied(old(a[..]), a[..], d + i, s + i, n - i)
    {
      i := i - 1;
      a[d + i] := a[s + i];
    }
  }
}
