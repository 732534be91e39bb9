# Interior-mutability primitives, modelled in Dafny

This project models the three single-threaded primitives of the `rust-pointers`
repository and proves their counting and borrowing protocols.

- `MyCell<T>` (`cell.dfy`, module `Cell`): a class with one mutable field. It
  can only be copied out whole (`Get`) or overwritten whole (`Set`).
- `MyRc<T>` (`rc.dfy`, module `Rc`): a handle to a shared heap block
  `MyRcInner<T>` that holds the payload and a `refcount` kept in a `MyCell`.
  The block carries a ghost set of its live handles (a dropped handle still
  points at the block but leaves the set) and a ghost
  `freed` flag for deallocation. Each handle carries a ghost `live` flag.
  The counting protocol is also stated on values: a `Tally` holds the count,
  the number of live handles and the number of frees; `RcStep` is one
  `clone` or `drop`; `RcRun` is a sequence of them. `Clone` and `Drop` are
  proved to move the block's `Tally` by exactly one `RcStep`, so the
  whole-run lemmas (`FreedExactlyOnce`) hold for the heap model too.
- `MyRefCell<T>` (`refcell.dfy`, module `RefCell`): a value plus a `RefState`
  (`Unshared | Shared(n) | Exclusive`) kept in a `MyCell`, and the guards
  `MyRef` and `MyRefMut`. The cell carries ghost sets of its live guards of
  each kind, and each guard carries a ghost `live` flag. On values, a
  `Config` pairs the state with the number of live guards of each kind.
  `Accounts` is the invariant "the state names exactly the live guards", so
  many readers xor one writer. `Step` and `Run` are the state machine.
  `Borrow`, `BorrowMut` and both guards' `Drop` are each proved to move the
  cell's `Config` by exactly one `Step`. `Replace` and `Write` are proved to
  leave the `Config` as it was.

`optional.dfy` holds the `Option` datatype that `borrow` and `borrow_mut`
return.

Rust's panics become preconditions:
- `replace` on a borrowed cell (`panic!()`);
- the `unreachable!()` arms of both guards' `drop`;
- the `n - 1` underflow that `Shared(0)` would cause in `MyRef::drop`.

In the methods, the arms these preconditions exclude are `assert false`.
`borrow` and `borrow_mut` still return `None` when the cell is busy, so the
asymmetry between them and `replace` is kept, not fixed.

The test methods (`NewSetGet`, `CloneThenDropBoth`, `ReadWriteReplace` and
its scoped parts) follow each module's `#[test]`. `ReadTwice` also calls
`borrow_mut` while the two shared guards are live, which the test itself does
not do.

## Model

| member | source | states |
|---|---|---|
| `Cell.MyCell.constructor` | src/cell.rs:11-13 | a new cell holds exactly the value it was given |
| `Cell.MyCell.Set` | src/cell.rs:15-17 | no precondition; afterwards the cell holds the new value whatever it held before; its frame is this cell only, so nothing else in the heap changes |
| `Cell.MyCell.Get` | src/cell.rs:19-24 | returns the stored value; it has no modifies clause, so the cell is unchanged and two consecutive reads agree |
| `Cell.NewSetGet` | src/cell.rs:32-38 | `new(v1).get()` is `v1` on every read, and after `set(v2)` the read is `v2` |
| `Rc.RcStep` | src/rc.rs:43-65 | a clone or drop is possible exactly while a handle is live, and every step keeps the invariant: count equals live handles and nothing is freed while a handle lives; once none lives, the block has been freed exactly once |
| `Rc.RcRun` | src/rc.rs:43-65 | every sequence of clones and drops from a sound block keeps that invariant |
| `Rc.FreeOnlyByLastDrop` | src/rc.rs:55-65 | the only step that frees is a drop through the last handle when the count reads 1; it leaves the count at 1 (not written) and no handle live |
| `Rc.StepsAreExact` | src/rc.rs:43-65 | clone raises the count by exactly one; a drop with count above 1 lowers it by exactly one and frees nothing |
| `Rc.PrefixKeepsBlock` | src/rc.rs:55-65 | along any run that goes through, every proper prefix leaves a live handle and an unfreed block, so no free happens before the last call |
| `Rc.FreedExactlyOnce` | src/rc.rs:55-65 | from a new block, after any run the count equals the live handles, the block is freed at most once, it is freed exactly when no handle is left, and never before the last call |
| `Rc.MyRcInner.constructor` | src/rc.rs:12-17 | the block holds the payload and a fresh counter holding 1, and is not freed |
| `Rc.MyRcInner.Free` | src/rc.rs:58-61 | deallocation requires that the block is not yet freed, so a double free cannot happen |
| `Rc.MyRc.constructor` | src/rc.rs:25-30 | allocates a fresh block holding the value, with count 1, owned by this one handle |
| `Rc.MyRc.Share` | src/rc.rs:48-50 | the new handle points at the given block and is live |
| `Rc.MyRc.Deref` | src/rc.rs:36-39 | returns the block's payload; the payload is a constant field, so every handle to the block reads the same value and no call changes it |
| `Rc.MyRc.Clone` | src/rc.rs:43-51 | a fresh handle to the same block, with no new block; the count rises by exactly one and still equals the number of live handles |
| `Rc.MyRc.Drop` | src/rc.rs:55-65 | the block is freed exactly when this was its only live handle, and then the count is not written; otherwise the count falls by exactly one and the block stays alive; either way the invariant holds afterwards |
| `Rc.CloneThenDropBoth` | src/rc.rs:84-106 | the counts read are 1, 2, 1; both handles read the payload; the block is not freed after the first drop and is freed after the last |
| `RefCell.Step` | src/refcell.rs:37-126 | every call keeps "the state names exactly the live guards"; only dropping a guard the client does not hold is impossible |
| `RefCell.Run` | src/refcell.rs:37-126 | every sequence of borrows and guard drops keeps that invariant |
| `RefCell.ReadersXorWriter` | src/refcell.rs:7-11 | under the invariant: at most one exclusive guard, never one together with shared guards, Unshared exactly when no guard lives, Exclusive exactly when an exclusive guard lives |
| `RefCell.BusyExactly` | src/refcell.rs:37-59 | `borrow` fails exactly while an exclusive guard lives; `borrow_mut` fails exactly while any guard lives |
| `RefCell.BorrowsAccumulate` | src/refcell.rs:37-49 | with no exclusive guard, any number k of `borrow` calls all succeed and the state becomes `Shared` of the total number of shared guards |
| `RefCell.DroppingReadersUnshares` | src/refcell.rs:81-92 | dropping every shared guard in turn takes `Shared(n)` down to Unshared |
| `RefCell.ReleasingAllUnshares` | src/refcell.rs:81-126 | once every live guard is dropped the cell is Unshared, and then both `borrow` and `borrow_mut` succeed |
| `RefCell.MyRefCell.constructor` | src/refcell.rs:22-27 | a new cell holds the value, in state Unshared, with no guards |
| `RefCell.MyRefCell.Borrow` | src/refcell.rs:37-49 | returns `None` exactly when the state was Exclusive, leaving everything unchanged; otherwise a fresh live shared guard, with Unshared becoming Shared(1) and Shared(n) becoming Shared(n+1); the value never changes |
| `RefCell.MyRefCell.BorrowMut` | src/refcell.rs:51-59 | succeeds exactly from Unshared, moving it to Exclusive with one fresh exclusive guard; otherwise `None` and nothing changes |
| `RefCell.MyRefCell.Replace` | src/refcell.rs:29-35 | on an unborrowed cell, returns the previous value, leaves the new one stored, and ends Unshared with no guards, its `Config` as before |
| `RefCell.MyRef.constructor` | src/refcell.rs:67-69 | the guard points at its cell and is live |
| `RefCell.MyRef.Deref` | src/refcell.rs:75-77 | a live shared guard reads the cell's current value |
| `RefCell.MyRef.Drop` | src/refcell.rs:81-92 | Shared(1) becomes Unshared and Shared(n) becomes Shared(n-1); the guard stops being live and the invariant still holds |
| `RefCell.MyRefMut.constructor` | src/refcell.rs:99-101 | the guard points at its cell and is live |
| `RefCell.MyRefMut.Deref` | src/refcell.rs:107-109 | a live exclusive guard reads the cell's current value |
| `RefCell.MyRefMut.Write` | src/refcell.rs:113-115 | writing through the exclusive guard changes the cell's value and nothing else; the `Config` is unchanged |
| `RefCell.MyRefMut.Drop` | src/refcell.rs:119-126 | Exclusive becomes Unshared; the guard stops being live and the invariant still holds |
| `RefCell.ReadTwice` | src/refcell.rs:138-146 | two live shared guards read the same stored value, `borrow_mut` fails while they live, and after they are dropped the cell is Unshared |
| `RefCell.WriteOnce` | src/refcell.rs:148-152 | a write through an exclusive guard is stored, and the cell is Unshared after the guard is dropped |
| `RefCell.ReadOnce` | src/refcell.rs:153-156 | a shared guard reads the stored value, and the cell is Unshared after it is dropped |
| `RefCell.ReadWriteReplace` | src/refcell.rs:134-164 | the test's sequence: both first reads see `v1`, `borrow_mut` is busy while they live, the read after the write sees `v2`, `replace(v3)` returns `v2`, and the last read sees `v3` |

## Left out

- The `eprintln!` messages in `MyRc::drop` and in the test's `Foo::drop`: they write to standard error. Running the payload's cleanup is the ghost `freed` flag.
- Raw pointers and `unsafe` (`UnsafeCell`, `NonNull`, `Box::into_raw`, `Box::from_raw`): the blocks and cells are ordinary heap objects, and deallocation only sets a ghost flag.
- `!Sync` and thread confinement: the model is single-threaded, like the source.
- Rust lifetimes (`'refcell`): a guard keeps a reference to its cell; the rule that it must not outlive the cell is not modelled.
- `usize` overflow of `refcount + 1` and of `n + 1` in `borrow`: counts are unbounded `nat`, and the source has no overflow guard.
- Trait dispatch (`Deref`, `DerefMut`, `Clone`, `Drop`): these are plain methods. A drop is an explicit `Drop()` call, and a dropped handle or guard has ghost `live` false.
- The `T: Copy` bound on `MyCell::get`: Dafny values are copied, so every type qualifies.
- The test's `Foo` payload: `CloneThenDropBoth` is generic in the payload.
- RefCell.MyRef.constructor: `MyRef::new` is public in the source, so a client could build a guard without `borrow` and drop it, lowering `Shared(n)` with no matching borrow. The model assumes every guard comes from `Borrow`; a guard built directly is not Valid, so its `Deref` and `Drop` cannot be called.
- RefCell.MyRefMut.constructor: likewise, `MyRefMut::new` is public, and a guard built without `borrow_mut` would give unchecked write access. The model assumes every exclusive guard comes from `BorrowMut`.
- RefCell.MyRefMut.Write: `deref_mut` hands out a `&mut T`, and the test only assigns through it, so the model covers that assignment and not a general mutable reference.
