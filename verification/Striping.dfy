/** Hashing by whole blocks: the reference both block hashes are measured against. */
module Striping {
  import opened Words

  ghost predicate Steps<V(!new)>(size: nat, step: (V, seq<byte>) --> V) {
    && size > 0
    && forall v, b: seq<byte> :: |b| == size ==> step.requires(v, b)
  }

  /** Feed every whole block of `data` to `step`, first block first; a shorter tail is ignored. */
  ghost function Fold<V(!new)>(size: nat, step: (V, seq<byte>) --> V, v: V, data: seq<byte>): V
    requires Steps(size, step)
    decreases |data|
  {
    if |data| < size then v else Fold(size, step, step(v, data[..size]), data[size..])
  }

  lemma FoldNothing<V(!new)>(size: nat, step: (V, seq<byte>) --> V, v: V)
    requires Steps(size, step)
    ensures Fold(size, step, v, []) == v
  {
  }

  /** Cutting the data at a block boundary and folding the parts in turn changes nothing. */
  lemma {:induction false} FoldAppend<V(!new)>(size: nat, step: (V, seq<byte>) --> V, v: V, a: seq<byte>, b: seq<byte>, k: nat)
    requires Steps(size, step) && |a| == k * size
    ensures Fold(size, step, v, a + b) == Fold(size, step, Fold(size, step, v, a), b)
    decreases k
  {
    if k == 0 {
      assert a == [];
      assert a + b == b;
    } else {
      assert (a + b)[..size] == a[..size];
      assert (a + b)[size..] == a[size..] + b;
      assert |a[size..]| == (k - 1) * size;
      FoldAppend(size, step, step(v, a[..size]), a[size..], b, k - 1);
    }
  }

  /** One more whole block is one more step. */
  lemma FoldStep<V(!new)>(size: nat, step: (V, seq<byte>) --> V, v: V, data: seq<byte>, k: nat, at: nat)
    requires Steps(size, step) && at == k * size && at + size <= |data|
    ensures Fold(size, step, v, data[..at + size]) == step(Fold(size, step, v, data[..at]), data[at..at + size])
  {
    var block := data[at..at + size];
    assert data[..at + size] == data[..at] + block;
    FoldAppend(size, step, v, data[..at], block, k);
    assert block[..size] == block;
    assert Fold(size, step, step(Fold(size, step, v, data[..at]), block), block[size..])
        == step(Fold(size, step, v, data[..at]), block);
  }
}
