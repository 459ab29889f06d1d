/**
 * The id batches of `get_df_stats_raw` (api_parser.py:72-73): the fixture ids
 * cut into consecutive groups of 20, each sent as the ids' decimal forms
 * joined with `-` in the `ids` query parameter.
 */
module Chunker {

  /** The batch size the bulk fixtures endpoint is called with. */
  const BatchSize: nat := 20

  function Min(a: int, b: int): int
  {
    if a <= b then a else b
  }

  /** `[xs[i:i+size] for i in range(0, len(xs), size)]`, cut from the front. */
  function Chunks<T>(xs: seq<T>, size: nat): seq<seq<T>>
    requires size > 0
    decreases |xs|
  {
    if |xs| == 0 then []
    else
      var n := Min(size, |xs|);
      [xs[..n]] + Chunks(xs[n..], size)
  }

  /** The concatenation of a list of lists. */
  function Concat<T>(xss: seq<seq<T>>): seq<T>
  {
    if |xss| == 0 then [] else xss[0] + Concat(xss[1..])
  }

  /** Where group `k` starts: `k * size`, counted up one group at a time. */
  function Start(k: nat, size: nat): nat
  {
    if k == 0 then 0 else Start(k - 1, size) + size
  }

  lemma MulSucc(k: nat, size: nat)
    ensures (k + 1) * size == k * size + size
  {
  }

  lemma {:induction false} StartIsProduct(k: nat, size: nat)
    ensures Start(k, size) == k * size
  {
    if k > 0 {
      StartIsProduct(k - 1, size);
      MulSucc(k - 1, size);
    }
  }

  /** The shape of the groups, with their extent counted by `Start`. */
  lemma {:induction false} ChunksShape<T>(xs: seq<T>, size: nat)
    requires size > 0
    ensures var cs := Chunks(xs, size);
      && Concat(cs) == xs
      && (forall k :: 0 <= k < |cs| ==> 0 < |cs[k]| <= size)
      && (forall k :: 0 <= k < |cs| - 1 ==> |cs[k]| == size)
      && (|cs| > 0 ==> Start(|cs| - 1, size) < |xs|)
      && |xs| <= Start(|cs|, size)
      && (|xs| == 0 <==> cs == [])
    decreases |xs|
  {
    var cs := Chunks(xs, size);
    if |xs| > 0 {
      var n := Min(size, |xs|);
      var rest := xs[n..];
      ChunksShape(rest, size);
      var cs' := Chunks(rest, size);
      assert cs == [xs[..n]] + cs';
      assert cs[1..] == cs';
      assert xs == xs[..n] + rest;
      assert forall k :: 1 <= k < |cs| ==> cs[k] == cs'[k - 1];
      assert Start(|cs|, size) == Start(|cs'|, size) + size;
      if |cs'| > 0 {
        assert Start(|cs'|, size) == Start(|cs'| - 1, size) + size;
      }
    }
  }

  /**
   * The groups, none empty, laid end to end give back the list; every group but
   * the last holds exactly `size` ids and the last at most `size`, so there are
   * ceil(|xs| / size) of them.  An empty list has no group.
   */
  lemma ChunksSpec<T>(xs: seq<T>, size: nat)
    requires size > 0
    ensures var cs := Chunks(xs, size);
      && Concat(cs) == xs
      && (forall k :: 0 <= k < |cs| ==> 0 < |cs[k]| <= size)
      && (forall k :: 0 <= k < |cs| - 1 ==> |cs[k]| == size)
      && (|cs| - 1) * size < |xs| <= |cs| * size
      && (|xs| == 0 <==> cs == [])
  {
    var cs := Chunks(xs, size);
    ChunksShape(xs, size);
    StartIsProduct(|cs|, size);
    if |cs| > 0 {
      StartIsProduct(|cs| - 1, size);
    }
  }

  /** With the batch size of 20, `L` ids make ceil(L / 20) batches. */
  lemma BatchCount<T>(xs: seq<T>)
    ensures |Chunks(xs, BatchSize)| == (|xs| + BatchSize - 1) / BatchSize
  {
    ChunksSpec(xs, BatchSize);
  }

  /**
   * Group `k` is the slice `xs[k*size : (k+1)*size]`, clipped to the list:
   * the recursive cut agrees with the slice comprehension of the source.
   */
  lemma {:induction false} ChunkAt<T>(xs: seq<T>, size: nat, k: nat)
    requires size > 0 && k < |Chunks(xs, size)|
    ensures Start(k, size) < |xs|
    ensures Chunks(xs, size)[k] == xs[Start(k, size) .. Min(Start(k + 1, size), |xs|)]
    decreases k
  {
    var n := Min(size, |xs|);
    var rest := xs[n..];
    assert Chunks(xs, size) == [xs[..n]] + Chunks(rest, size);
    if k > 0 {
      ChunkAt(rest, size, k - 1);
      assert n == size;
      var lo := Start(k - 1, size);
      var hi := Min(Start(k, size), |rest|);
      assert Start(k, size) == lo + size;
      assert Min(Start(k + 1, size), |xs|) == hi + size;
      assert rest[lo..hi] == xs[lo + size .. hi + size];
    }
  }

  lemma ChunkIsSlice<T>(xs: seq<T>, size: nat, k: nat)
    requires size > 0 && k < |Chunks(xs, size)|
    ensures k * size < |xs|
    ensures Chunks(xs, size)[k] == xs[k * size .. Min((k + 1) * size, |xs|)]
  {
    ChunkAt(xs, size, k);
    StartIsProduct(k, size);
    StartIsProduct(k + 1, size);
  }

  /** The character of a decimal digit. */
  function DigitChar(d: nat): (c: char)
    requires d < 10
    ensures '0' <= c <= '9'
  {
    (48 + d) as char
  }

  /** The value of a decimal digit character. */
  function DigitValue(c: char): nat
  {
    if '0' <= c <= '9' then (c as int - 48) else 0
  }

  /** `str(n)` for a natural number: its decimal digits, most significant first. */
  function NatToString(n: nat): (s: string)
    ensures |s| > 0
    ensures forall i :: 0 <= i < |s| ==> '0' <= s[i] <= '9'
  {
    if n < 10 then [DigitChar(n)] else NatToString(n / 10) + [DigitChar(n % 10)]
  }

  /** `str(i)` for an integer: a `-` before the digits of a negative number. */
  function IntToString(i: int): string
  {
    if i < 0 then "-" + NatToString(-i) else NatToString(i)
  }

  /** `int(s)` for a string of decimal digits. */
  function ParseDigits(s: string): nat
  {
    if |s| == 0 then 0 else ParseDigits(s[..|s| - 1]) * 10 + DigitValue(s[|s| - 1])
  }

  /** Reading back the decimal form of a natural number gives the number. */
  lemma {:induction false} ParseNatToString(n: nat)
    ensures ParseDigits(NatToString(n)) == n
  {
    if n >= 10 {
      ParseNatToString(n / 10);
      var s := NatToString(n / 10) + [DigitChar(n % 10)];
      assert s[..|s| - 1] == NatToString(n / 10);
    }
  }

  /** `'-'.join(parts)`. */
  function JoinDash(parts: seq<string>): string
  {
    if |parts| == 0 then ""
    else if |parts| == 1 then parts[0]
    else parts[0] + "-" + JoinDash(parts[1..])
  }

  /** `s.split('-')`: the pieces between dashes, one more than there are dashes. */
  function SplitDash(s: string): (parts: seq<string>)
    ensures |parts| > 0
  {
    if |s| == 0 then [""]
    else
      var rest := SplitDash(s[1..]);
      if s[0] == '-' then [""] + rest else [[s[0]] + rest[0]] + rest[1..]
  }

  lemma {:induction false} SplitNoDash(p: string, t: string)
    requires '-' !in p
    ensures SplitDash(p + t) == [p + SplitDash(t)[0]] + SplitDash(t)[1..]
  {
    if |p| > 0 {
      assert (p + t)[1..] == p[1..] + t;
      SplitNoDash(p[1..], t);
      assert [p[0]] + (p[1..] + SplitDash(t)[0]) == p + SplitDash(t)[0];
    } else {
      assert p + t == t;
      assert p + SplitDash(t)[0] == SplitDash(t)[0];
      assert SplitDash(t) == [SplitDash(t)[0]] + SplitDash(t)[1..];
    }
  }

  /** Splitting the joined parts on `-` gives the parts back when none holds a `-`. */
  lemma {:induction false} SplitJoin(parts: seq<string>)
    requires |parts| > 0
    requires forall i :: 0 <= i < |parts| ==> '-' !in parts[i]
    ensures SplitDash(JoinDash(parts)) == parts
  {
    var p := parts[0];
    if |parts| == 1 {
      SplitNoDash(p, "");
      assert p + "" == p;
    } else {
      var tail := JoinDash(parts[1..]);
      SplitJoin(parts[1..]);
      assert SplitDash("-" + tail) == [""] + SplitDash(tail);
      SplitNoDash(p, "-" + tail);
      assert p + "-" + tail == p + ("-" + tail);
      assert p + "" == p;
    }
  }

  /** The `ids` query value of one batch: `'-'.join(map(str, batch))`. */
  function BatchQuery(batch: seq<int>): string
  {
    JoinDash(seq(|batch|, i requires 0 <= i < |batch| => IntToString(batch[i])))
  }

  /** `breakdown_list`: the query value of every batch, in order. */
  function BreakdownList(ids: seq<int>): seq<string>
  {
    var cs := Chunks(ids, BatchSize);
    seq(|cs|, k requires 0 <= k < |cs| => BatchQuery(cs[k]))
  }

  /**
   * A batch of non-negative ids (every fixture id is one) is recovered from its
   * query value by splitting on `-` and reading each piece as a number.
   */
  lemma BatchQueryRoundTrip(batch: seq<int>)
    requires |batch| > 0
    requires forall i :: 0 <= i < |batch| ==> batch[i] >= 0
    ensures var parts := SplitDash(BatchQuery(batch));
      && |parts| == |batch|
      && forall i :: 0 <= i < |batch| ==> parts[i] == IntToString(batch[i]) && ParseDigits(parts[i]) == batch[i]
  {
    var strs := seq(|batch|, i requires 0 <= i < |batch| => IntToString(batch[i]));
    forall i | 0 <= i < |batch|
      ensures '-' !in strs[i]
      ensures ParseDigits(strs[i]) == batch[i]
    {
      ParseNatToString(batch[i]);
    }
    SplitJoin(strs);
  }

  /**
   * The breakdown has one query value per group of 20 ids, and splitting value
   * `k` on `-` gives back the ids of group `k`: ids `20k` to `20k+19`, clipped.
   */
  lemma BreakdownListSpec(ids: seq<int>, k: nat)
    requires forall i :: 0 <= i < |ids| ==> ids[i] >= 0
    requires k < |BreakdownList(ids)|
    ensures |BreakdownList(ids)| == (|ids| + BatchSize - 1) / BatchSize
    ensures var batch := ids[k * BatchSize .. Min((k + 1) * BatchSize, |ids|)];
      var parts := SplitDash(BreakdownList(ids)[k]);
      && |parts| == |batch|
      && forall i :: 0 <= i < |batch| ==> ParseDigits(parts[i]) == batch[i]
  {
    var cs := Chunks(ids, BatchSize);
    BatchCount(ids);
    ChunkIsSlice(ids, BatchSize, k);
    var batch := cs[k];
    assert forall i :: 0 <= i < |batch| ==> batch[i] in ids;
    BatchQueryRoundTrip(batch);
  }
}
