/**
 * MyRc (src/rc.rs): a manually reference-counted handle to a shared heap
 * block that holds a payload and a `refcount` kept in a MyCell.
 *
 * The first half states the counting protocol on values: a Tally records what
 * the block's counter holds, how many handles really exist and how many times
 * the block was deallocated; RcStep is the effect of one `clone` or `drop`.
 * The second half is the heap model: MyRcInner and MyRc are classes, and
 * each of their state-changing methods is proved to move the block's Tally by
 * exactly one RcStep, so every lemma of the first half applies to them.
 */
module Rc {
  import opened Optional
  import opened Cell

  /** A call a client makes through one of its live handles. */
  datatype RcCall = CloneCall | DropCall

  /** The bookkeeping of one block: `count` is the value of its `refcount`,
      `live` the number of handles that point at it, `frees` how many times it
      has been deallocated. */
  datatype Tally = Tally(count: nat, live: nat, frees: nat)

  /** The block that `MyRc::new` allocates: count 1, one handle, not freed. */
  const Fresh: Tally := Tally(1, 1, 0)

  /** The protocol's invariant: while some handle exists, the count equals the
      number of handles and the block has not been freed; once none exists,
      the block has been freed exactly once. */
  predicate Sound(t: Tally)
  {
    if t.live >= 1 then t.count == t.live && t.frees == 0 else t.frees == 1
  }

  /** One call through a live handle (`None` when no handle is left to call
      through). `clone` writes `count + 1` back; `drop` frees the block when it
      reads 1 and otherwise writes `count - 1` back. */
  function RcStep(t: Tally, call: RcCall): (r: Option<Tally>)
    requires Sound(t)
    ensures r.Some? <==> t.live >= 1
    ensures r.Some? ==> Sound(r.value)
  {
    if t.live == 0 then None
    else match call
      case CloneCall => Some(Tally(t.count + 1, t.live + 1, t.frees))
      case DropCall =>
        if t.count == 1 then Some(Tally(t.count, t.live - 1, t.frees + 1))
        else Some(Tally(t.count - 1, t.live - 1, t.frees))
  }

  /** A whole sequence of calls, in order; `None` if some call finds no live
      handle. */
  function RcRun(t: Tally, calls: seq<RcCall>): (r: Option<Tally>)
    requires Sound(t)
    ensures r.Some? ==> Sound(r.value)
    decreases |calls|
  {
    if calls == [] then Some(t)
    else match RcStep(t, calls[0])
      case None => None
      case Some(t') => RcRun(t', calls[1..])
  }

  /** A call that frees the block is a `drop` through the last handle, made
      when the count is 1; the count is not written by it. */
  lemma FreeOnlyByLastDrop(t: Tally, call: RcCall)
    requires Sound(t) && RcStep(t, call).Some?
    requires RcStep(t, call).value.frees != t.frees
    ensures call == DropCall && t.live == 1 && t.count == 1
    ensures RcStep(t, call) == Some(Tally(1, 0, 1))
  {
  }

  /** Clone and drop are exact: a clone adds one to the count, a drop that
      does not free removes one, and neither frees the block. */
  lemma StepsAreExact(t: Tally)
    requires Sound(t) && t.live >= 1
    ensures RcStep(t, CloneCall) == Some(Tally(t.count + 1, t.live + 1, 0))
    ensures t.count > 1 ==> RcStep(t, DropCall) == Some(Tally(t.count - 1, t.live - 1, 0))
  {
  }

  /** Every proper prefix of a run that goes through leaves at least one
      live handle and an unfreed block. */
  lemma {:induction false} PrefixKeepsBlock(t: Tally, calls: seq<RcCall>, k: nat)
    requires Sound(t) && t.live >= 1
    requires RcRun(t, calls).Some? && k < |calls|
    ensures RcRun(t, calls[..k]).Some?
    ensures RcRun(t, calls[..k]).value.live >= 1
    ensures RcRun(t, calls[..k]).value.frees == 0
    decreases k
  {
    if k == 0 {
      assert calls[..k] == [];
    } else {
      var t' := RcStep(t, calls[0]).value;
      var rest := calls[1..];
      assert RcRun(t, calls) == RcRun(t', rest);
      assert rest[0] == calls[1];
      assert RcStep(t', rest[0]).Some?;
      PrefixKeepsBlock(t', rest, k - 1);
      assert calls[..k][0] == calls[0];
      assert calls[..k][1..] == rest[..k - 1];
    }
  }

  /** Any sequence of clones and drops starting from a new block: the count
      always equals the number of live handles, the block is freed at most
      once, it is freed exactly when no handle is left, and it is never freed
      before the last call of the run (no proper prefix frees it). */
  lemma FreedExactlyOnce(calls: seq<RcCall>)
    requires RcRun(Fresh, calls).Some?
    ensures var t := RcRun(Fresh, calls).value;
      t.frees <= 1 && (t.frees == 1 <==> t.live == 0) && (t.live >= 1 ==> t.count == t.live)
    ensures forall k | 0 <= k < |calls| ::
      RcRun(Fresh, calls[..k]).Some? && RcRun(Fresh, calls[..k]).value.frees == 0
  {
    forall k | 0 <= k < |calls|
      ensures RcRun(Fresh, calls[..k]).Some? && RcRun(Fresh, calls[..k]).value.frees == 0
    {
      PrefixKeepsBlock(Fresh, calls, k);
    }
  }

  /** The heap block `MyRcInner`: the payload and the counter, plus the ghost
      set of handles that point at it and a ghost flag for deallocation. */
  class MyRcInner<T> {
    const value: T
    const refcount: MyCell<nat>
    ghost var handles: set<MyRc<T>>
    ghost var freed: bool

    /** The block's bookkeeping as a Tally. */
    ghost function Counts(): Tally
      reads this, refcount
    {
      Tally(refcount.value, |handles|, if freed then 1 else 0)
    }

    ghost predicate Valid()
      reads this, refcount, handles
    {
      Sound(Counts()) &&
      forall h | h in handles :: h.inner == this && h.live
    }

    /** `MyRcInner::new`: the payload and a counter holding 1; the handle that
        owns it is registered by MyRc's constructor. */
    constructor (v: T)
      ensures value == v && fresh(refcount) && refcount.value == 1
      ensures handles == {} && !freed
    {
      value := v;
      refcount := new MyCell(1);
      handles := {};
      freed := false;
    }

    /** Deallocation of the block (`Box::from_raw` and its drop). Its
        precondition is what makes a double free impossible. */
    method Free()
      requires !freed
      modifies this
      ensures freed && handles == {}
    {
      freed := true;
      handles := {};
    }
  }

  /** A handle: a pointer to the block and a ghost flag saying whether the
      handle has been dropped. */
  class MyRc<T> {
    const inner: MyRcInner<T>
    ghost var live: bool

    ghost predicate Valid()
      reads this, inner, inner.refcount, inner.handles
    {
      live && this in inner.handles && inner.Valid()
    }

    /** `MyRc::new`: allocates a fresh block holding `v` with count 1, owned
        by this handle alone. */
    constructor (v: T)
      ensures Valid() && fresh(inner) && fresh(inner.refcount)
      ensures inner.value == v && inner.handles == {this}
      ensures inner.Counts() == Fresh
    {
      inner := new MyRcInner(v);
      live := true;
      new;
      inner.handles := {this};
    }

    /** The handle value `MyRc { inner: self.inner }` built by `clone`. It is
        not Valid, and so cannot be used, until `Clone` registers it in the
        block's `handles`; in the source only this module can build it,
        because `inner` is private. */
    constructor Share(inner: MyRcInner<T>)
      ensures this.inner == inner && live
    {
      this.inner := inner;
      live := true;
    }

    /** `Deref::deref`: the payload, read only. */
    method Deref() returns (v: T)
      requires Valid()
      ensures v == inner.value
    {
      v := inner.value;
    }

    /** `Clone::clone`: one more handle to the same block; the count goes up
        by exactly one and no block is allocated. */
    method Clone() returns (h: MyRc<T>)
      requires Valid()
      modifies inner, inner.refcount
      ensures Valid() && h.Valid()
      ensures fresh(h) && h.inner == inner
      ensures inner.handles == old(inner.handles) + {h}
      ensures inner.refcount.value == old(inner.refcount.value) + 1
      ensures RcStep(old(inner.Counts()), CloneCall) == Some(inner.Counts())
    {
      var refcount := inner.refcount.Get();
      inner.refcount.Set(refcount + 1);
      h := new MyRc.Share(inner);
      inner.handles := inner.handles + {h};
    }

    /** `Drop::drop`: when the count read is 1 this is the last handle and the
        block is freed, without writing the count; otherwise the count goes
        down by exactly one and the block stays alive. */
    method Drop()
      requires Valid()
      modifies this, inner, inner.refcount
      ensures !live && inner.Valid()
      ensures inner.handles == old(inner.handles) - {this}
      ensures inner.freed <==> old(inner.handles) == {this}
      ensures inner.freed ==> inner.refcount.value == old(inner.refcount.value)
      ensures !inner.freed ==> inner.refcount.value == old(inner.refcount.value) - 1
      ensures RcStep(old(inner.Counts()), DropCall) == Some(inner.Counts())
    {
      var refcount := inner.refcount.Get();
      if refcount == 1 {
        assert |inner.handles - {this}| == 0;
        assert inner.handles == {this};
        inner.Free();
      } else {
        inner.refcount.Set(refcount - 1);
        inner.handles := inner.handles - {this};
      }
      live := false;
    }
  }

  /** The module's own test: a new handle reads the payload with count 1; a
      clone makes the count 2 and reads the same payload; dropping the first
      handle brings the count back to 1 without freeing; dropping the last
      frees the block. */
  method CloneThenDropBoth<T>(v: T) returns (counts: seq<nat>, seen: seq<T>,
                                             ghost freedEarly: bool, ghost freedAtEnd: bool)
    ensures counts == [1, 2, 1]
    ensures seen == [v, v, v]
    ensures !freedEarly && freedAtEnd
  {
    var rc := new MyRc(v);
    var bar := rc.Deref();
    var c0 := rc.inner.refcount.Get();

    var rc1 := rc.Clone();
    var c1 := rc.inner.refcount.Get();
    var bar1 := rc1.Deref();

    rc.Drop();
    var c2 := rc1.inner.refcount.Get();
    var bar2 := rc1.Deref();
    freedEarly := rc1.inner.freed;

    rc1.Drop();
    freedAtEnd := rc1.inner.freed;

    counts := [c0, c1, c2];
    seen := [bar, bar1, bar2];
  }
}
