/** Overwriting a stretch of a byte buffer: the effect of Span.CopyTo, Span.Fill,
    Span.Clear and Buffer.BlockCopy. */
module Splices {
  import opened Bytes

  /** `s` with `b` written over it from offset `at`. */
  function Splice<T>(s: seq<T>, at: nat, b: seq<T>): (r: seq<T>)
    requires at + |b| <= |s|
    ensures |r| == |s|
  {
    s[..at] + b + s[at + |b|..]
  }

  lemma SpliceRead<T>(s: seq<T>, at: nat, b: seq<T>)
    requires at + |b| <= |s|
    ensures Splice(s, at, b)[at..at + |b|] == b
  {
  }

  lemma SpliceFrame<T>(s: seq<T>, at: nat, b: seq<T>, lo: nat, hi: nat)
    requires at + |b| <= |s| && lo <= hi <= |s|
    requires hi <= at || at + |b| <= lo
    ensures Splice(s, at, b)[lo..hi] == s[lo..hi]
  {
  }

  lemma SpliceAt<T>(s: seq<T>, at: nat, b: seq<T>, i: nat)
    requires at + |b| <= |s| && i < |s|
    ensures Splice(s, at, b)[i] == if at <= i < at + |b| then b[i - at] else s[i]
  {
  }

  lemma PrefixSlice<T>(s: seq<T>, n: nat, lo: nat, hi: nat)
    requires lo <= hi <= n <= |s|
    ensures s[..n][lo..hi] == s[lo..hi]
  {
  }

  lemma PrefixesAgree<T>(s: seq<T>, t: seq<T>, n: nat, lo: nat, hi: nat)
    requires lo <= hi <= n <= |s| && n <= |t| && s[..n] == t[..n]
    ensures s[lo..hi] == t[lo..hi]
  {
    PrefixSlice(s, n, lo, hi);
    PrefixSlice(t, n, lo, hi);
  }

  lemma SuffixesAgree<T>(s: seq<T>, t: seq<T>, n: nat, lo: nat, hi: nat)
    requires n <= lo <= hi <= |s| == |t| && s[n..] == t[n..]
    ensures s[lo..hi] == t[lo..hi]
  {
    assert s[n..][lo - n..hi - n] == s[lo..hi] && t[n..][lo - n..hi - n] == t[lo..hi];
  }

  lemma SliceJoin<T>(s: seq<T>, a: nat, b: nat, c: nat)
    requires a <= b <= c <= |s|
    ensures s[a..b] + s[b..c] == s[a..c]
  {
  }

  lemma SliceOfSlice<T>(s: seq<T>, from: nat, n: nat, lo: nat, hi: nat)
    requires lo <= hi <= n && from + n <= |s|
    ensures s[from..from + n][lo..hi] == s[from + lo..from + hi]
  {
    var inner, outer := s[from..from + n][lo..hi], s[from + lo..from + hi];
    forall i | 0 <= i < hi - lo ensures inner[i] == outer[i] {
      assert inner[i] == s[from..from + n][lo + i] == s[from + lo + i];
    }
  }

  lemma SlicePrefix<T>(s: seq<T>, from: nat, n: nat, m: nat)
    requires m <= n && from + n <= |s|
    ensures s[from..from + n][..m] == s[from..from + m]
  {
  }

  /** Sequences that agree element by element have the same slices. */
  lemma SliceOfPrefix<T>(b: seq<T>, o: seq<T>, lo: nat, hi: nat)
    requires lo <= hi <= |o| <= |b| && forall k :: 0 <= k < |o| ==> b[k] == o[k]
    ensures b[lo..hi] == o[lo..hi]
  {
  }

  lemma PrefixOfPrefix<T>(s: seq<T>, n: nat, m: nat)
    requires m <= n <= |s|
    ensures s[..n][..m] == s[..m]
  {
  }

  /** Writing inside an earlier write amends what that write stored. */
  lemma SpliceNested<T>(s: seq<T>, at: nat, b: seq<T>, k: nat, c: seq<T>)
    requires at + |b| <= |s| && k + |c| <= |b|
    ensures Splice(Splice(s, at, b), at + k, c) == Splice(s, at, Splice(b, k, c))
  {
  }

  method CopyTo(buffer: array<byte>, at: nat, b: seq<byte>)
    requires at + |b| <= buffer.Length
    modifies buffer
    ensures buffer[..] == Splice(old(buffer[..]), at, b)
  {
    forall i | 0 <= i < |b| {
      buffer[at + i] := b[i];
    }
  }

  /** Two adjacent writes are one write. */
  lemma SpliceAppend<T>(s: seq<T>, at: nat, a: seq<T>, b: seq<T>)
    requires at + |a| + |b| <= |s|
    ensures Splice(Splice(s, at, a), at + |a|, b) == Splice(s, at, a + b)
  {
  }

  /** A write that stays inside a window amends that window and nothing else. */
  lemma SpliceWindow<T>(s: seq<T>, at: nat, b: seq<T>, lo: nat, hi: nat)
    requires lo <= at && at + |b| <= hi <= |s|
    ensures Splice(s, at, b)[lo..hi] == Splice(s[lo..hi], at - lo, b)
    ensures Splice(s, at, b)[..lo] == s[..lo] && Splice(s, at, b)[hi..] == s[hi..]
  {
    var r, n := Splice(s, at, b), at + |b|;
    SpliceFrame(s, at, b, 0, lo);
    SpliceFrame(s, at, b, hi, |s|);
    assert r[..lo] == r[0..lo] && s[..lo] == s[0..lo] && r[hi..] == r[hi..|s|] && s[hi..] == s[hi..|s|];
    assert r[lo..hi] == s[lo..at] + b + s[n..hi];
    SliceOfSlice(s, lo, hi - lo, 0, at - lo);
    SliceOfSlice(s, lo, hi - lo, n - lo, hi - lo);
    assert s[lo..hi][..at - lo] == s[lo..hi][0..at - lo] && s[lo..hi][n - lo..] == s[lo..hi][n - lo..hi - lo];
  }

  /** A list of (offset, bytes) fields written one after the other. */
  function Overlaid(s: seq<byte>, fields: seq<(nat, seq<byte>)>): (r: seq<byte>)
    requires forall f <- fields :: f.0 + |f.1| <= |s|
    ensures |r| == |s|
  {
    if fields == [] then s else
      var last := fields[|fields| - 1];
      assert last in fields;
      Splice(Overlaid(s, fields[..|fields| - 1]), last.0, last.1)
  }

  /** The last field is written over the ones before it. */
  lemma OverlaidStep(s: seq<byte>, fields: seq<(nat, seq<byte>)>)
    requires fields != [] && forall f <- fields :: f.0 + |f.1| <= |s|
    ensures var n := |fields| - 1;
            && (forall f <- fields[..n] :: f.0 + |f.1| <= |s|) && fields[n].0 + |fields[n].1| <= |s|
            && Overlaid(s, fields) == Splice(Overlaid(s, fields[..n]), fields[n].0, fields[n].1)
  {
    assert fields[|fields| - 1] in fields;
  }

  ghost predicate Ascending(fields: seq<(nat, seq<byte>)>) {
    forall i :: 0 <= i < |fields| - 1 ==> fields[i].0 + |fields[i].1| <= fields[i + 1].0
  }

  lemma AscendingPrefix(fields: seq<(nat, seq<byte>)>, n: nat)
    requires Ascending(fields) && n <= |fields|
    ensures Ascending(fields[..n])
  {
  }

  lemma {:induction false} AscendingApart(fields: seq<(nat, seq<byte>)>, i: nat, j: nat)
    requires Ascending(fields) && i < j < |fields|
    ensures fields[i].0 + |fields[i].1| <= fields[j].0
  {
    if i < j - 1 { AscendingApart(fields, i, j - 1); }
  }

  /** No field lies in the gap behind field `k`. */
  lemma AscendingGap(fields: seq<(nat, seq<byte>)>, k: nat)
    requires Ascending(fields) && k + 1 < |fields|
    ensures forall f <- fields :: f.0 + |f.1| <= fields[k].0 + |fields[k].1| || fields[k + 1].0 <= f.0
  {
    forall f | f in fields ensures f.0 + |f.1| <= fields[k].0 + |fields[k].1| || fields[k + 1].0 <= f.0 {
      var i :| 0 <= i < |fields| && fields[i] == f;
      if i < k { AscendingApart(fields, i, k); }
      if k + 1 < i { AscendingApart(fields, k + 1, i); }
    }
  }

  /** Fields that do not overlap all read back. */
  lemma {:induction false} OverlaidRead(s: seq<byte>, fields: seq<(nat, seq<byte>)>, k: nat)
    requires forall f <- fields :: f.0 + |f.1| <= |s|
    requires Ascending(fields) && k < |fields|
    ensures Overlaid(s, fields)[fields[k].0..fields[k].0 + |fields[k].1|] == fields[k].1
  {
    hide Splice, Overlaid, Ascending;
    var n := |fields| - 1;
    OverlaidStep(s, fields);
    var rest := Overlaid(s, fields[..n]);
    if k < n {
      AscendingPrefix(fields, n);
      OverlaidRead(s, fields[..n], k);
      AscendingApart(fields, k, n);
      SpliceFrame(rest, fields[n].0, fields[n].1, fields[k].0, fields[k].0 + |fields[k].1|);
    } else {
      SpliceRead(rest, fields[n].0, fields[n].1);
    }
  }

  /** Bytes after the last field keep their value. */
  lemma {:induction false} OverlaidTail(s: seq<byte>, fields: seq<(nat, seq<byte>)>, n: nat)
    requires forall f <- fields :: f.0 + |f.1| <= n <= |s|
    requires n <= |s|
    ensures Overlaid(s, fields)[n..] == s[n..]
  {
    hide Splice, Overlaid;
    if fields == [] {
      NoneOverlaid(s);
    } else {
      var k := |fields| - 1;
      OverlaidStep(s, fields);
      assert fields[k] in fields;
      OverlaidTail(s, fields[..k], n);
      SpliceWindow(Overlaid(s, fields[..k]), fields[k].0, fields[k].1, 0, n);
    }
  }

  lemma NoneOverlaid(s: seq<byte>)
    ensures Overlaid(s, []) == s
  {
  }

  method WriteFields(buffer: array<byte>, fields: seq<(nat, seq<byte>)>)
    requires forall f <- fields :: f.0 + |f.1| <= buffer.Length
    modifies buffer
    ensures buffer[..] == Overlaid(old(buffer[..]), fields)
  {
    ghost var before := buffer[..];
    var i := 0;
    while i < |fields|
      invariant 0 <= i <= |fields| && buffer[..] == Overlaid(before, fields[..i])
    {
      assert fields[..i + 1][..i] == fields[..i] && fields[i] in fields;
      CopyTo(buffer, fields[i].0, fields[i].1);
      i := i + 1;
    }
    assert fields[..i] == fields;
  }

  /** Bytes no field touches keep their value. */
  lemma {:induction false} OverlaidGap(s: seq<byte>, fields: seq<(nat, seq<byte>)>, lo: nat, hi: nat)
    requires forall f <- fields :: f.0 + |f.1| <= |s| && (f.0 + |f.1| <= lo || hi <= f.0)
    requires lo <= hi <= |s|
    ensures Overlaid(s, fields)[lo..hi] == s[lo..hi]
  {
    hide Splice, Overlaid;
    if fields == [] {
      NoneOverlaid(s);
    } else {
      var n := |fields| - 1;
      OverlaidStep(s, fields);
      assert fields[n] in fields;
      OverlaidGap(s, fields[..n], lo, hi);
      SpliceFrame(Overlaid(s, fields[..n]), fields[n].0, fields[n].1, lo, hi);
    }
  }

  function PadTo(b: seq<byte>, n: nat): (r: seq<byte>)
    requires |b| <= n
    ensures |r| == n
  {
    b + Zeros(n - |b|)
  }
}
