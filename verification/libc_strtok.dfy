// strspn, strcspn and strtok of libc.c, on a buffer that holds a NUL-terminated string.
module LibcStrtok {
  const NUL := '\0'

  /** A char pointer into the buffer. */
  datatype Ptr = Null | At(i: nat)

  /** [a, b) is a longest non-empty stretch of t without delimiters. */
  predicate MaxRun(t: string, delim: string, a: int, b: int) {
    && 0 <= a < b <= |t| && (forall k :: a <= k < b ==> t[k] !in delim)
    && (a > 0 ==> t[a - 1] in delim) && (b < |t| ==> t[b] in delim)
  }

  /** What lies before `pos` is dealt with: its runs are known, and no run crosses pos. */
  ghost predicate Done(t: string, delim: string, runs: seq<(nat, nat)>, pos: nat) {
    && pos <= |t| && (0 < pos < |t| ==> t[pos - 1] in delim)
    && (forall a, b :: MaxRun(t, delim, a, b) && a < pos ==> (a, b) in runs)
    && (forall r :: r in runs ==> MaxRun(t, delim, r.0, r.1) && r.1 <= pos)
    && Ascending(runs)
  }

  ghost predicate Ascending(runs: seq<(nat, nat)>) {
    forall i, j :: 0 <= i < j < |runs| ==> runs[i].1 < runs[j].0
  }

  /** t after strtok has ended each run with a NUL. */
  ghost predicate Cut(t: string, now: string, runs: seq<(nat, nat)>) {
    && |now| == |t|
    && forall k :: 0 <= k < |t| ==> now[k] == if EndsAt(runs, k) then NUL else t[k]
  }

  ghost predicate EndsAt(runs: seq<(nat, nat)>, k: int) {
    exists r :: r in runs && r.1 == k
  }

  function CharAt(t: string, k: int): char {
    if 0 <= k < |t| then t[k] else NUL
  }

  /** The next run [a, b) found from pos on. */
  lemma NextRun(t: string, delim: string, runs: seq<(nat, nat)>, pos: nat, a: nat, b: nat)
    requires Done(t, delim, runs, pos) && pos <= a < b <= |t|
    requires forall k :: pos <= k < a ==> t[k] in delim
    requires forall k :: a <= k < b ==> t[k] !in delim
    requires b < |t| ==> t[b] in delim
    ensures Done(t, delim, runs + [(a, b)], if b < |t| then b + 1 else b)
    ensures forall r :: r in runs ==> r.1 < a
  {
    assert MaxRun(t, delim, a, b);
    forall r | r in runs ensures r.1 < a {
      if r.1 == pos && pos > 0 { assert t[r.1 - 1] !in delim; }
    }
    forall x, y | MaxRun(t, delim, x, y) && x < b + 1 ensures (x, y) in runs + [(a, b)] {
      var c, d := CharAt(t, x), CharAt(t, x - 1);
      if x == a { SameEnd(t, delim, a, b, y); }
    }
  }

  lemma SameEnd(t: string, delim: string, a: int, b: int, y: int)
    requires MaxRun(t, delim, a, b) && MaxRun(t, delim, a, y)
    ensures b == y
  {
    var c, d := CharAt(t, b), CharAt(t, y);
  }

  lemma NoMoreRuns(t: string, delim: string, runs: seq<(nat, nat)>, pos: nat)
    requires Done(t, delim, runs, pos) && forall k :: pos <= k < |t| ==> t[k] in delim
    ensures forall a, b :: MaxRun(t, delim, a, b) <==> 0 <= a <= b && (a, b) in runs
  {
    forall a, b | MaxRun(t, delim, a, b) ensures (a, b) in runs {
      var c := CharAt(t, a);
    }
  }

  lemma CutOneMore(t: string, was: string, now: string, runs: seq<(nat, nat)>, a: nat, b: nat)
    requires Cut(t, was, runs) && b <= |t| && now == if b < |t| then was[b := NUL] else was
    ensures Cut(t, now, runs + [(a, b)])
  {
    forall k | 0 <= k < |t| ensures now[k] == if EndsAt(runs + [(a, b)], k) then NUL else t[k] {
      if EndsAt(runs, k) {
        var r :| r in runs && r.1 == k;
        assert r in runs + [(a, b)];
      }
      if k == b { assert (a, b) in runs + [(a, b)]; }
    }
  }

  class Strings {
    const s: array<char>
    /** The static pointer in strtok. */
    var last: Ptr

    constructor (s: array<char>)
      ensures this.s == s && last == Null
    {
      this.s := s;
      last := Null;
    }

    /** From p a string runs up to n. */
    predicate StringFrom(p: nat, n: nat)
      reads s
    {
      p <= n < s.Length && s[n] == NUL && forall k :: p <= k < n ==> s[k] != NUL
    }

    method Strspn(p: nat, accept: string, ghost n: nat) returns (k: nat)
      requires StringFrom(p, n)
      ensures p + k <= n && (forall j :: p <= j < p + k ==> s[j] in accept) && (p + k < n ==> s[p + k] !in accept)
    {
      k := 0;
      while s[p + k] != NUL
        invariant p + k <= n && forall j :: p <= j < p + k ==> s[j] in accept
        decreases n - (p + k)
      {
        var a := 0;
        while a < |accept|
          invariant 0 <= a <= |accept| && s[p + k] !in accept[..a]
        {
          if s[p + k] == accept[a] { break; }
          a := a + 1;
        }
        if a == |accept| {
          assert accept[..a] == accept;
          return;
        }
        k := k + 1;
      }
    }

    method Strcspn(p: nat, reject: string, ghost n: nat) returns (k: nat)
      requires StringFrom(p, n)
      ensures p + k <= n && (forall j :: p <= j < p + k ==> s[j] !in reject) && (p + k < n ==> s[p + k] in reject)
    {
      k := 0;
      while s[p + k] != NUL
        invariant p + k <= n && forall j :: p <= j < p + k ==> s[j] !in reject
        decreases n - (p + k)
      {
        var r := 0;
        while r < |reject|
          invariant 0 <= r <= |reject| && s[p + k] !in reject[..r]
        {
          if s[p + k] == reject[r] { return; }
          r := r + 1;
        }
        assert reject[..r] == reject;
        k := k + 1;
      }
    }

    /** strtok.  With nothing left to search it returns NULL, and goes on doing so; else it
        passes the delimiters, and the token it returns goes up to the next delimiter, which
        is overwritten, or to the end of the string. */
    method Strtok(start: Ptr, delim: string, ghost n: nat) returns (tok: Ptr, ghost end: nat)
      requires var p := if start.At? then start else last; p.At? ==> StringFrom(p.i, n)
      modifies this`last, s
      ensures var p := if start.At? then start else old(last);
              match tok
              case Null =>
                last == Null && s[..] == old(s[..]) && (p.At? ==> forall k :: p.i <= k < n ==> s[k] in delim)
              case At(i) =>
                && p.At? && p.i <= i < end <= n && n < s.Length
                && (forall k :: p.i <= k < i ==> old(s[k]) in delim)
                && (forall k :: i <= k < end ==> old(s[k]) !in delim)
                && (end < n ==> old(s[end]) in delim)
                && s[..] == (if end < n then old(s[..])[end := NUL] else old(s[..]))
                && last == At(if end < n then end + 1 else end) && StringFrom(last.i, n)
    {
      end := 0;
      var p := if start.At? then start else last;
      if p == Null {
        last := Null;
        return Null, 0;
      }
      var i := p.i;
      var skip := Strspn(i, delim, n);
      i := i + skip;
      if s[i] == NUL {
        last := Null;
        return Null, 0;
      }
      tok := At(i);
      var len := Strcspn(i, delim, n);
      i := i + len;
      end := i;
      if s[i] != NUL {
        s[i] := NUL;
        i := i + 1;
      }
      last := At(i);
    }

    /** The calls strtok(s, delim), strtok(NULL, delim), ... up to the first NULL.  They
        return exactly the longest delimiter-free stretches of the string, in order, each
        ended by a NUL, and change nothing but the delimiter after each. */
    method AllTokens(delim: string, n: nat) returns (ghost runs: seq<(nat, nat)>, tokens: seq<nat>)
      requires StringFrom(0, n)
      modifies this`last, s
      ensures var t := old(s[..n]);
              && (forall a, b :: MaxRun(t, delim, a, b) <==> 0 <= a <= b && (a, b) in runs)
              && Ascending(runs) && Cut(t, s[..n], runs)
      ensures |tokens| == |runs| && forall i :: 0 <= i < |runs| ==> tokens[i] == runs[i].0
      ensures last == Null && s[n..] == old(s[n..])
    {
      ghost var t := s[..n];
      runs, tokens := [], [];
      ghost var pos: nat, end: nat := 0, 0;
      var tok;
      tok, end := Strtok(At(0), delim, n);
      while tok.At?
        invariant Answered(t, delim, runs, pos, tok, end) && |t| == n && s[n..] == old(s[n..])
        invariant |tokens| == |runs| && forall i :: 0 <= i < |runs| ==> tokens[i] == runs[i].0
        decreases |t| - pos, tok.At?
      {
        tokens := tokens + [tok.i];
        tok, end, runs, pos := Again(t, delim, runs, pos, tok.i, end);
      }
      NoMoreRuns(t, delim, runs, pos);
    }

    /** The calls so far have found `runs`, and the last one has answered tok. */
    ghost predicate Answered(t: string, delim: string, runs: seq<(nat, nat)>, pos: nat, tok: Ptr, end: nat)
      reads this, s
    {
      && |t| < s.Length && Done(t, delim, runs, pos)
      && match tok
         case Null => last == Null && Cut(t, s[..|t|], runs) && forall k :: pos <= k < |t| ==> t[k] in delim
         case At(i) =>
           Found(t, delim, pos, i, end, s[..|t|], runs) && last == At(if end < |t| then end + 1 else end) && StringFrom(last.i, |t|)
    }

    /** The next call, strtok(NULL, delim), after one that found [a, b). */
    method Again(ghost t: string, delim: string, ghost runs: seq<(nat, nat)>, ghost pos: nat, ghost a: nat, ghost b: nat)
      returns (tok: Ptr, ghost end: nat, ghost runs': seq<(nat, nat)>, ghost pos': nat)
      requires Answered(t, delim, runs, pos, At(a), b)
      modifies this`last, s
      ensures Answered(t, delim, runs', pos', tok, end) && pos' > pos && runs' == runs + [(a, b)]
      ensures s[|t|..] == old(s[|t|..])
    {
      ghost var n := |t|;
      NextRun(t, delim, runs, pos, a, b);
      runs' := runs + [(a, b)];
      pos' := if b < n then b + 1 else b;
      ghost var was := s[..n];
      Unread(t, was, runs', pos');
      tok, end := Strtok(Null, delim, n);
      if tok.At? { CutOneMore(t, was, s[..n], runs', tok.i, end); }
    }
  }

  /** strtok has just returned the token [a, b). */
  ghost predicate Found(t: string, delim: string, pos: nat, a: nat, b: nat, now: string, runs: seq<(nat, nat)>) {
    && pos <= a < b <= |t| && (forall k :: pos <= k < a ==> t[k] in delim)
    && (forall k :: a <= k < b ==> t[k] !in delim) && (b < |t| ==> t[b] in delim)
    && Cut(t, now, runs + [(a, b)])
  }

  /** The part of the buffer still to be searched is as it was. */
  lemma Unread(t: string, now: string, runs: seq<(nat, nat)>, pos: nat)
    requires Cut(t, now, runs) && forall r :: r in runs ==> r.1 < pos || r.1 >= |t|
    ensures forall k :: pos <= k < |t| ==> now[k] == t[k]
  {
  }
}
