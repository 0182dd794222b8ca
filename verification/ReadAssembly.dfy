/** Reassembling chunk results in file order, independent of the order they arrived in. */
module ReadAssembly {
  import opened Common
  import opened FileModel

  type Slots = seq<Option<Bytes>>

  /** Start of chunk `p` relative to the first. */
  function Start(lens: seq<nat>, p: nat): nat
    requires p <= |lens|
  {
    if p == 0 then 0 else Start(lens, p - 1) + lens[p - 1]
  }

  lemma {:induction false} StartAppend(lens: seq<nat>, length: nat, p: nat)
    requires p <= |lens|
    ensures Start(lens + [length], p) == Start(lens, p)
  {
    if p > 0 {
      StartAppend(lens, length, p - 1);
    }
  }

  /** The concatenation of the first `k` results. */
  function Assembled(done: Slots, k: nat): Bytes
    requires k <= |done| && forall p :: 0 <= p < k ==> done[p].Some?
  {
    if k == 0 then [] else Assembled(done, k - 1) + done[k - 1].value
  }

  /** Chunk `p` holds file bytes from its own position; if it is short, `short` knows. */
  ghost predicate SlotOk(file: Bytes, base: nat, lens: seq<nat>, d: Bytes, short: Option<nat>, p: nat, complete: bool)
    requires p < |lens|
  {
    && |d| <= lens[p]
    && (|d| < lens[p] ==> short.Some? && short.value <= p)
    && d == Slice(file, base + Start(lens, p), |d|)
    && (complete ==> d == Slice(file, base + Start(lens, p), lens[p]))
  }

  ghost predicate SlotsOk(file: Bytes, base: nat, lens: seq<nat>, done: Slots, short: Option<nat>, complete: bool)
    requires |done| == |lens|
  {
    forall p {:trigger done[p]} :: 0 <= p < |lens| && done[p].Some? ==> SlotOk(file, base, lens, done[p].value, short, p, complete)
  }

  /** The recorded short position is a finished chunk that really came back short. */
  ghost predicate ShortIsShort(lens: seq<nat>, done: Slots, short: Option<nat>)
    requires |done| == |lens|
  {
    short.Some? ==> short.value < |done| && done[short.value].Some? && |done[short.value].value| < lens[short.value]
  }

  /** How many leading chunks make up the result. */
  function TakeCount(done: Slots, short: Option<nat>): nat {
    if short.Some? then short.value + 1 else |done|
  }

  lemma FullJoin(file: Bytes, base: nat, out: Bytes, at: nat, d: Bytes)
    requires out == Slice(file, base, at) && |out| == at
    requires d == Slice(file, base + at, |d|)
    ensures out + d == Slice(file, base, at + |d|)
  {
    SliceJoin(file, base, at, |d|);
  }

  lemma {:induction false} AssembledPrefix(file: Bytes, base: nat, lens: seq<nat>, done: Slots,
                                           short: Option<nat>, complete: bool, k: nat)
    requires |done| == |lens| && k <= |done|
    requires forall p :: 0 <= p < k ==> done[p].Some?
    requires SlotsOk(file, base, lens, done, short, complete)
    requires short.Some? ==> k <= short.value
    ensures Assembled(done, k) == Slice(file, base, Start(lens, k))
    ensures |Assembled(done, k)| == Start(lens, k)
  {
    if k > 0 {
      AssembledPrefix(file, base, lens, done, short, complete, k - 1);
      var d, at := done[k - 1].value, Start(lens, k - 1);
      assert d == Slice(file, base + at, |d|) && |d| == lens[k - 1] by {
        assert SlotOk(file, base, lens, d, short, k - 1, complete);
      }
      assert Start(lens, k) == at + |d| && Assembled(done, k) == Assembled(done, k - 1) + d;
      FullJoin(file, base, Assembled(done, k - 1), at, d);
    }
  }

  lemma {:induction false} StartMonotone(lens: seq<nat>, p: nat, q: nat)
    requires p <= q <= |lens|
    ensures Start(lens, p) <= Start(lens, q)
  {
    if p < q {
      StartMonotone(lens, p, q - 1);
    }
  }

  /** A full prefix of `at` bytes followed by one short chunk of at most `length`. */
  lemma PrefixThenShort(file: Bytes, base: nat, at: nat, length: nat, d: Bytes, total: nat, complete: bool)
    requires |Slice(file, base, at)| == at
    requires |d| < length && at + length <= total
    requires d == Slice(file, base + at, |d|)
    requires complete ==> d == Slice(file, base + at, length)
    ensures Slice(file, base, at) + d == Slice(file, base, at + |d|)
    ensures complete ==> Slice(file, base, at) + d == Slice(file, base, total)
  {
    SliceJoin(file, base, at, |d|);
    if complete {
      SliceJoinShort(file, base, at, length, total);
    }
  }

  /** `out` is a prefix of the requested slice, and the whole slice if `complete`. */
  ghost predicate Reads(file: Bytes, base: nat, total: nat, out: Bytes, complete: bool) {
    && |out| <= total
    && out == Slice(file, base, |out|)
    && (complete ==> out == Slice(file, base, total))
  }

  /** Chunks cut at the first short one concatenate to a prefix of the requested slice; if every
      chunk is as long as the file allows, they concatenate to the slice itself. */
  lemma {:induction false} AssembledSlice(file: Bytes, base: nat, lens: seq<nat>, done: Slots, short: Option<nat>, complete: bool)
    requires |done| == |lens|
    requires ShortIsShort(lens, done, short)
    requires forall p :: 0 <= p < TakeCount(done, short) ==> done[p].Some?
    requires SlotsOk(file, base, lens, done, short, complete)
    ensures Reads(file, base, Start(lens, |lens|), Assembled(done, TakeCount(done, short)), complete)
    ensures short.None? <==> |Assembled(done, TakeCount(done, short))| == Start(lens, |lens|)
  {
    if short.None? {
      AssembledPrefix(file, base, lens, done, short, complete, |lens|);
    } else {
      AssembledShort(file, base, lens, done, short.value, complete);
    }
  }

  lemma {:induction false} AssembledShort(file: Bytes, base: nat, lens: seq<nat>, done: Slots, s: nat, complete: bool)
    requires |done| == |lens|
    requires ShortIsShort(lens, done, Some(s))
    requires forall p :: 0 <= p <= s ==> done[p].Some?
    requires SlotsOk(file, base, lens, done, Some(s), complete)
    ensures Reads(file, base, Start(lens, |lens|), Assembled(done, s + 1), complete)
    ensures |Assembled(done, s + 1)| < Start(lens, |lens|)
  {
    var d, out, total := done[s].value, Assembled(done, s), Start(lens, |lens|);
    AssembledPrefix(file, base, lens, done, Some(s), complete, s);
    assert SlotOk(file, base, lens, d, Some(s), s, complete);
    StartMonotone(lens, s + 1, |lens|);
    PrefixThenShort(file, base, |out|, lens[s], d, total, complete);
    assert Assembled(done, s + 1) == out + d;
  }

  /** The length half of `SlotsOk`, which needs no assumption about the server. */
  ghost predicate SizesOk(lens: seq<nat>, done: Slots, short: Option<nat>)
    requires |done| == |lens|
  {
    forall p {:trigger done[p]} :: 0 <= p < |lens| && done[p].Some? ==>
      |done[p].value| <= lens[p] && (|done[p].value| < lens[p] ==> short.Some? && short.value <= p)
  }

  lemma {:induction false} AssembledPrefixSize(lens: seq<nat>, done: Slots, short: Option<nat>, k: nat)
    requires |done| == |lens| && k <= |done| && SizesOk(lens, done, short)
    requires forall p :: 0 <= p < k ==> done[p].Some?
    requires short.Some? ==> k <= short.value
    ensures |Assembled(done, k)| == Start(lens, k)
  {
    if k > 0 {
      AssembledPrefixSize(lens, done, short, k - 1);
      assert |done[k - 1].value| == lens[k - 1];
    }
  }

  /** The result is as long as what was asked for exactly when no chunk was short. */
  lemma {:induction false} AssembledSize(lens: seq<nat>, done: Slots, short: Option<nat>)
    requires |done| == |lens| && ShortIsShort(lens, done, short) && SizesOk(lens, done, short)
    requires forall p :: 0 <= p < |done| ==> done[p].Some?
    ensures TakeCount(done, short) <= |done|
    ensures |Assembled(done, TakeCount(done, short))| <= Start(lens, |lens|)
    ensures short.None? <==> |Assembled(done, TakeCount(done, short))| == Start(lens, |lens|)
  {
    if short.None? {
      AssembledPrefixSize(lens, done, short, |lens|);
    } else {
      AssembledPrefixSize(lens, done, short, short.value);
      StartMonotone(lens, short.value + 1, |lens|);
    }
  }
}
