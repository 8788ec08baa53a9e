/** Positional reading of byte strings, and lists of items read or written one after another. */
module Codec {
  import opened Bytes

  /** A read at a position: the value and the position after it. */
  datatype Parse<+T> = Parsed(value: T, next: nat) | Failed

  function ReadUint(bo: ByteOrder, data: Bytes, pos: nat, w: nat): (r: Parse<nat>)
    ensures r.Parsed? ==> r.value < Pow256(w) && r.next == pos + w <= |data|
  {
    if pos + w <= |data| then
      PutGet(bo, data[pos..pos + w]);
      Parsed(Get(bo, data[pos..pos + w]), pos + w)
    else Failed
  }

  function ReadBytes(data: Bytes, pos: nat, n: nat): (r: Parse<Bytes>)
    ensures r.Parsed? ==> |r.value| == n && r.next == pos + n <= |data|
  {
    if pos + n <= |data| then Parsed(data[pos..pos + n], pos + n) else Failed
  }

  /** `s` lies in `data` at `pos`. */
  ghost predicate HasAt(data: Bytes, pos: nat, s: Bytes) {
    pos + |s| <= |data| && data[pos..pos + |s|] == s
  }

  lemma HasBoth(data: Bytes, pos: nat, a: Bytes, b: Bytes)
    requires HasAt(data, pos, a + b)
    ensures HasAt(data, pos, a) && HasAt(data, pos + |a|, b)
  {
    var s := data[pos..pos + |a + b|];
    SliceOfSlice(data, pos, pos + |a + b|, 0, |a|);
    SliceOfSlice(data, pos, pos + |a + b|, |a|, |a + b|);
    assert s[0..|a|] == a && s[|a|..|a + b|] == b;
  }

  lemma HasByte(data: Bytes, pos: nat, b: byte)
    requires HasAt(data, pos, [b])
    ensures pos < |data| && data[pos] == b
  {
    assert data[pos..pos + 1][0] == b;
  }

  lemma {:induction false} UintAt(bo: ByteOrder, data: Bytes, pos: nat, n: nat, w: nat)
    requires n < Pow256(w) && HasAt(data, pos, Put(bo, n, w))
    ensures ReadUint(bo, data, pos, w) == Parsed(n, pos + w)
  {
    GetPut(bo, n, w);
  }

  // ----- Lists -----

  /** The encodings of the items, one after another. */
  function Concat<T>(enc: T -> Bytes, xs: seq<T>): Bytes {
    if xs == [] then [] else Concat(enc, xs[..|xs| - 1]) + enc(xs[|xs| - 1])
  }

  lemma {:induction false} ConcatNext<T>(enc: T -> Bytes, xs: seq<T>, i: nat)
    requires i < |xs|
    ensures Concat(enc, xs[..i + 1]) == Concat(enc, xs[..i]) + enc(xs[i])
  {
    assert xs[..i + 1][..i] == xs[..i];
  }

  /** `n` reads, each starting where the one before ended. */
  function Many<T>(read: nat -> Parse<T>, pos: nat, n: nat): (r: Parse<seq<T>>)
    ensures r.Parsed? ==> |r.value| == n
  {
    if n == 0 then Parsed([], pos)
    else
      match Many(read, pos, n - 1)
      case Failed => Failed
      case Parsed(xs, p) =>
        match read(p)
        case Failed => Failed
        case Parsed(x, end) => Parsed(xs + [x], end)
  }

  lemma {:induction false} ManyNext<T>(read: nat -> Parse<T>, pos: nat, n: nat, xs: seq<T>, p: nat)
    requires Many(read, pos, n) == Parsed(xs, p)
    ensures Many(read, pos, n + 1) == match read(p) case Failed => Failed case Parsed(x, end) => Parsed(xs + [x], end)
  {
  }

  /** Once a read fails, so does every longer list. */
  lemma {:induction false} ManyFails<T>(read: nat -> Parse<T>, pos: nat, m: nat, n: nat)
    requires m <= n && Many(read, pos, m).Failed?
    ensures Many(read, pos, n).Failed?
    decreases n
  {
    if m < n {
      ManyFails(read, pos, m, n - 1);
    }
  }

  /** `n` reads into a state, each starting where the one before ended. */
  function Steps<S>(step: (nat, S) -> Parse<S>, pos: nat, s: S, n: nat): Parse<S> {
    if n == 0 then Parsed(s, pos)
    else
      match Steps(step, pos, s, n - 1)
      case Failed => Failed
      case Parsed(s', p) => step(p, s')
  }

  lemma {:induction false} StepsNext<S>(step: (nat, S) -> Parse<S>, pos: nat, s: S, n: nat, s': S, p: nat)
    requires Steps(step, pos, s, n) == Parsed(s', p)
    ensures Steps(step, pos, s, n + 1) == step(p, s')
  {
  }

  lemma {:induction false} StepsFail<S>(step: (nat, S) -> Parse<S>, pos: nat, s: S, m: nat, n: nat)
    requires m <= n && Steps(step, pos, s, m).Failed?
    ensures Steps(step, pos, s, n).Failed?
    decreases n
  {
    if m < n {
      StepsFail(step, pos, s, m, n - 1);
    }
  }

  /** Wherever `x` was written, it reads back. */
  ghost predicate ReadsBack<T>(enc: T -> Bytes, read: nat -> Parse<T>, data: Bytes, x: T) {
    forall p: nat :: HasAt(data, p, enc(x)) ==> read(p) == Parsed(x, p + |enc(x)|)
  }

  /** A list written item by item reads back, given that each item does. */
  lemma {:induction false} ManyAt<T>(enc: T -> Bytes, read: nat -> Parse<T>, data: Bytes, pos: nat, xs: seq<T>)
    requires HasAt(data, pos, Concat(enc, xs))
    requires forall x :: x in xs ==> ReadsBack(enc, read, data, x)
    ensures Many(read, pos, |xs|) == Parsed(xs, pos + |Concat(enc, xs)|)
  {
    if xs != [] {
      var init, last := xs[..|xs| - 1], xs[|xs| - 1];
      HasBoth(data, pos, Concat(enc, init), enc(last));
      ManyAt(enc, read, data, pos, init);
      assert ReadsBack(enc, read, data, last);
      assert init + [last] == xs;
    }
  }

  lemma ConcatAssoc(a: Bytes, b: Bytes, c: Bytes)
    ensures a + b + c == a + (b + c)
  {
  }
}
