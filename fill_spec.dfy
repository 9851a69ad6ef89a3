/**
 * What fillBuffer does to the stream of unconsumed queue bytes, stated on
 * values: drop the first k bytes, copy the next n, zero-pad what the queue
 * cannot supply. PaContext.FillBuffer is proved against these functions.
 */
module FillSpec {
  import opened ChunkQueue

  function Min(a: nat, b: nat): nat { if a <= b then a else b }

  /** A run of n zero bytes (the memset of the destination). */
  function Zeros(n: nat): (z: seq<byte>)
    ensures |z| == n && forall i :: 0 <= i < n ==> z[i] == 0
  {
    if n == 0 then [] else Zeros(n - 1) + [0]
  }

  /** The stream after its first k bytes are skipped (all of it gone if k is too large). */
  function AfterSkip(u: seq<byte>, k: nat): seq<byte>
  {
    if k <= |u| then u[k..] else []
  }

  /**
   * The bytes copied into the destination: the window of the stream that
   * starts after the skip, at most n long, and exactly n long unless the
   * queue runs dry.
   */
  function Copied(u: seq<byte>, k: nat, n: nat): (c: seq<byte>)
    ensures c == u[Min(k, |u|)..Min(k + n, |u|)]
    ensures |c| <= n
    ensures |c| == n <==> !RunsDry(u, k, n) || n == 0
  {
    var a := AfterSkip(u, k);
    if n <= |a| then a[..n] else a
  }

  /** The bytes left in the queue: the copied bytes and these make up the stream after the skip. */
  function Left(u: seq<byte>, k: nat, n: nat): (l: seq<byte>)
    ensures l == u[Min(k + n, |u|)..]
    ensures Copied(u, k, n) + l == AfterSkip(u, k)
  {
    var a := AfterSkip(u, k);
    if n <= |a| then a[n..] else []
  }

  /** The queue cannot supply k + n bytes, so the fill sets finished. */
  predicate RunsDry(u: seq<byte>, k: nat, n: nat)
  {
    |u| < k + n
  }

  /**
   * The first n bytes of the destination after the fill: the copied bytes,
   * then zeros; the whole window after the skip when the queue suffices.
   */
  function Padded(u: seq<byte>, k: nat, n: nat): (p: seq<byte>)
    ensures |p| == n
    ensures p[..|Copied(u, k, n)|] == Copied(u, k, n)
    ensures forall i :: |Copied(u, k, n)| <= i < n ==> p[i] == 0
    ensures !RunsDry(u, k, n) ==> p == u[k..k + n]
  {
    var c := Copied(u, k, n);
    c + Zeros(n - |c|)
  }

  /**
   * Two consecutive fills (the second without a skip) copy exactly what one
   * fill of the combined size would, and leave the same bytes behind.
   */
  lemma {:induction false} ConsecutiveFills(u: seq<byte>, k: nat, a: nat, b: nat)
    ensures Copied(u, k, a) + Copied(Left(u, k, a), 0, b) == Copied(u, k, a + b)
    ensures Left(Left(u, k, a), 0, b) == Left(u, k, a + b)
  {
    var l := Left(u, k, a);
    var i, j, m := Min(k, |u|), Min(k + a, |u|), Min(k + a + b, |u|);
    assert l == u[j..];
    assert Copied(l, 0, b) == u[j..m];
    assert u[i..j] + u[j..m] == u[i..m];
  }

  /** Skipping k bytes is consuming them: the copy that follows starts where a k-byte fill would stop. */
  lemma {:induction false} SkipIsConsume(u: seq<byte>, k: nat, n: nat)
    ensures Copied(u, k, n) == Copied(Left(u, 0, k), 0, n)
    ensures Left(u, k, n) == Left(Left(u, 0, k), 0, n)
    ensures Copied(u, 0, k) + Copied(u, k, n) == Copied(u, 0, k + n)
  {
    ConsecutiveFills(u, 0, k, n);
  }

  function Sum(ns: seq<nat>): nat
  {
    if ns == [] then 0 else ns[0] + Sum(ns[1..])
  }

  /** The bytes returned by a series of fills of sizes ns, none skipping, concatenated. */
  function FillSeries(u: seq<byte>, ns: seq<nat>): seq<byte>
  {
    if ns == [] then [] else Copied(u, 0, ns[0]) + FillSeries(Left(u, 0, ns[0]), ns[1..])
  }

  /** The queue left behind by that series. */
  function AfterSeries(u: seq<byte>, ns: seq<nat>): seq<byte>
  {
    if ns == [] then u else AfterSeries(Left(u, 0, ns[0]), ns[1..])
  }

  /**
   * Byte conservation: a series of fills hands out the stream in order,
   * exactly as one fill of the total size, and nothing else.
   */
  lemma {:induction false} SeriesIsOneFill(u: seq<byte>, ns: seq<nat>)
    ensures FillSeries(u, ns) == Copied(u, 0, Sum(ns))
    ensures AfterSeries(u, ns) == Left(u, 0, Sum(ns))
  {
    if ns == [] {
      assert Copied(u, 0, 0) == [];
    } else {
      SeriesIsOneFill(Left(u, 0, ns[0]), ns[1..]);
      ConsecutiveFills(u, 0, ns[0], Sum(ns[1..]));
    }
  }

  /** Once the requested total reaches the stream length, every byte has been handed out once. */
  lemma DrainedSeries(u: seq<byte>, ns: seq<nat>)
    requires Sum(ns) >= |u|
    ensures FillSeries(u, ns) == u
    ensures AfterSeries(u, ns) == []
  {
    SeriesIsOneFill(u, ns);
  }

  /**
   * Chunks of 100, 50 and 200 bytes read by fills of 80, 80, 80, 80 and 30
   * bytes: all 350 bytes come out in push order, the fifth fill is served in
   * full (it does not run dry), and any later non-empty fill runs dry.
   */
  lemma {:induction false} ThreeChunkScenario(cs: seq<Chunk>, n: nat)
    requires |cs| == 3 && |cs[0].data| == 100 && |cs[1].data| == 50 && |cs[2].data| == 200
    ensures var u := Flatten(cs);
      && FillSeries(u, [80, 80, 80, 80, 30]) == u && |u| == 350
      && !RunsDry(AfterSeries(u, [80, 80, 80, 80]), 0, 30)
      && AfterSeries(u, [80, 80, 80, 80, 30]) == []
      && (n > 0 ==> RunsDry(AfterSeries(u, [80, 80, 80, 80, 30]), 0, n))
  {
    var u := Flatten(cs);
    FlattenLength(cs);
    assert TotalBytes(cs[1..][1..][1..]) == 0 by { assert cs[1..][1..][1..] == []; }
    assert TotalBytes(cs[1..][1..]) == 200;
    assert TotalBytes(cs[1..]) == 250;
    assert |u| == 350;
    var four: seq<nat> := [80, 80, 80, 80];
    var five: seq<nat> := [80, 80, 80, 80, 30];
    assert Sum(four) == 320 by {
      assert four[1..][1..][1..][1..] == [];
    }
    assert Sum(five) == 350 by {
      assert five[1..][1..][1..][1..][1..] == [];
    }
    SeriesIsOneFill(u, four);
    DrainedSeries(u, five);
  }

  /**
   * Pushing more bytes behind a fill that the queue could already serve does
   * not change what it copies; the new bytes wait behind what it leaves.
   */
  lemma AppendBehind(u: seq<byte>, d: seq<byte>, k: nat, n: nat)
    requires k + n <= |u|
    ensures Copied(u + d, k, n) == Copied(u, k, n)
    ensures Left(u + d, k, n) == Left(u, k, n) + d
  {
    assert (u + d)[k..k + n] == u[k..k + n];
    assert (u + d)[k + n..] == u[k + n..] + d;
  }
}
