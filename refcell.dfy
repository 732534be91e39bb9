/**
 * MyRefCell (src/refcell.rs): a cell with a run-time borrow checker. Its
 * borrow state lives in a MyCell and follows the rule "many readers xor one
 * writer"; the guards MyRef (shared) and MyRefMut (exclusive) step the state
 * back toward Unshared when they are dropped.
 *
 * The first half states the state machine on values: a Config pairs the
 * borrow state with the number of live guards of each kind, Accounts is the
 * invariant that the state says exactly how many guards are live, and Step is
 * the effect of one call. The second half is the heap model: Borrow,
 * BorrowMut and both guards' Drop each move a cell's Config by exactly one
 * Step, while Replace (a borrow_mut and a drop in one call) and Write leave
 * the Config as it was.
 */
module RefCell {
  import opened Optional
  import opened Cell

  /** The borrow state (`RefState`); `Shared(n)` counts the shared guards. */
  datatype RefState = Unshared | Shared(n: nat) | Exclusive

  /** `borrow`'s transition of the state; `None` when the cell is busy. */
  function AfterBorrow(s: RefState): Option<RefState>
  {
    match s
    case Unshared => Some(Shared(1))
    case Shared(n) => Some(Shared(n + 1))
    case Exclusive => None
  }

  /** `borrow_mut`'s transition of the state; `None` when the cell is busy. */
  function AfterBorrowMut(s: RefState): Option<RefState>
  {
    match s
    case Unshared => Some(Exclusive)
    case _ => None
  }

  /** The state written when a MyRef is dropped; the other states are
      unreachable there (the source panics on them). */
  function AfterRefDrop(s: RefState): RefState
    requires s.Shared? && s.n >= 1
  {
    if s.n == 1 then Unshared else Shared(s.n - 1)
  }

  /** The state written when a MyRefMut is dropped; only Exclusive is
      reachable there. */
  function AfterRefMutDrop(s: RefState): RefState
    requires s.Exclusive?
  {
    Unshared
  }

  /** A borrow state together with the guards that are live. */
  datatype Config = Config(state: RefState, readers: nat, writers: nat)

  /** The borrow invariant: the state names exactly the live guards. */
  predicate Accounts(c: Config)
  {
    match c.state
    case Unshared => c.readers == 0 && c.writers == 0
    case Shared(n) => n >= 1 && c.readers == n && c.writers == 0
    case Exclusive => c.readers == 0 && c.writers == 1
  }

  /** The state that n live shared guards and no exclusive guard call for. */
  function SharedBy(readers: nat): RefState
  {
    if readers == 0 then Unshared else Shared(readers)
  }

  /** A call a client makes on the cell or on a guard it holds. */
  datatype Call = BorrowCall | BorrowMutCall | DropRefCall | DropRefMutCall

  /** One call. A busy `borrow`/`borrow_mut` leaves the configuration as it
      is; dropping a guard the client does not hold is `None`. */
  function Step(c: Config, call: Call): (r: Option<Config>)
    requires Accounts(c)
    ensures r.None? <==> (call == DropRefCall && c.readers == 0) ||
                         (call == DropRefMutCall && c.writers == 0)
    ensures r.Some? ==> Accounts(r.value)
  {
    match call
    case BorrowCall =>
      (match AfterBorrow(c.state)
       case None => Some(c)
       case Some(s) => Some(Config(s, c.readers + 1, c.writers)))
    case BorrowMutCall =>
      (match AfterBorrowMut(c.state)
       case None => Some(c)
       case Some(s) => Some(Config(s, c.readers, c.writers + 1)))
    case DropRefCall =>
      if c.readers == 0 then None
      else Some(Config(AfterRefDrop(c.state), c.readers - 1, c.writers))
    case DropRefMutCall =>
      if c.writers == 0 then None
      else Some(Config(AfterRefMutDrop(c.state), c.readers, c.writers - 1))
  }

  /** A sequence of calls, in order; `None` if one of them is impossible. */
  function Run(c: Config, calls: seq<Call>): (r: Option<Config>)
    requires Accounts(c)
    ensures r.Some? ==> Accounts(r.value)
    decreases |calls|
  {
    if calls == [] then Some(c)
    else match Step(c, calls[0])
      case None => None
      case Some(c') => Run(c', calls[1..])
  }

  /** k copies of the same call. */
  function Repeat(call: Call, k: nat): (r: seq<Call>)
    ensures |r| == k
  {
    if k == 0 then [] else [call] + Repeat(call, k - 1)
  }

  /** Many readers xor one writer, and the state is Unshared exactly when no
      guard is live. */
  lemma ReadersXorWriter(c: Config)
    requires Accounts(c)
    ensures c.writers <= 1
    ensures c.readers == 0 || c.writers == 0
    ensures c.state == Unshared <==> c.readers == 0 && c.writers == 0
    ensures c.state == Exclusive <==> c.writers == 1
  {
  }

  /** `borrow` fails exactly while an exclusive guard is live, `borrow_mut`
      exactly while any guard is live. */
  lemma BusyExactly(c: Config)
    requires Accounts(c)
    ensures AfterBorrow(c.state).None? <==> c.writers >= 1
    ensures AfterBorrowMut(c.state).None? <==> c.readers + c.writers >= 1
  {
  }

  /** From a cell with no exclusive guard, any number of `borrow` calls all
      succeed, and the state then counts every shared guard. */
  lemma {:induction false} BorrowsAccumulate(c: Config, k: nat)
    requires Accounts(c) && c.writers == 0
    ensures Run(c, Repeat(BorrowCall, k)) == Some(Config(SharedBy(c.readers + k), c.readers + k, 0))
    decreases k
  {
    if k == 0 {
      assert c.state == SharedBy(c.readers);
    } else {
      var c' := Config(SharedBy(c.readers + 1), c.readers + 1, 0);
      assert Step(c, BorrowCall) == Some(c');
      assert Repeat(BorrowCall, k)[1..] == Repeat(BorrowCall, k - 1);
      BorrowsAccumulate(c', k - 1);
    }
  }

  /** Dropping every shared guard, one after the other, brings the cell back
      to Unshared. */
  lemma {:induction false} DroppingReadersUnshares(c: Config)
    requires Accounts(c) && c.writers == 0
    ensures Run(c, Repeat(DropRefCall, c.readers)) == Some(Config(Unshared, 0, 0))
    decreases c.readers
  {
    if c.readers >= 1 {
      var c' := Config(SharedBy(c.readers - 1), c.readers - 1, 0);
      assert Step(c, DropRefCall) == Some(c');
      assert Repeat(DropRefCall, c.readers)[1..] == Repeat(DropRefCall, c.readers - 1);
      DroppingReadersUnshares(c');
    }
  }

  /** Once every live guard is dropped the cell is Unshared again, and both
      `borrow` and `borrow_mut` succeed. */
  lemma ReleasingAllUnshares(c: Config)
    requires Accounts(c)
    ensures var calls := Repeat(DropRefCall, c.readers) + Repeat(DropRefMutCall, c.writers);
      Run(c, calls) == Some(Config(Unshared, 0, 0)) &&
      Step(Config(Unshared, 0, 0), BorrowCall) == Some(Config(Shared(1), 1, 0)) &&
      Step(Config(Unshared, 0, 0), BorrowMutCall) == Some(Config(Exclusive, 0, 1))
  {
    if c.writers == 0 {
      assert Repeat(DropRefCall, c.readers) + Repeat(DropRefMutCall, c.writers)
          == Repeat(DropRefCall, c.readers);
      DroppingReadersUnshares(c);
    } else {
      assert Repeat(DropRefCall, c.readers) + Repeat(DropRefMutCall, c.writers) == [DropRefMutCall];
      assert Step(c, DropRefMutCall) == Some(Config(Unshared, 0, 0));
    }
  }

  /** The cell: the value, the borrow state in a MyCell, and the ghost sets
      of live guards of each kind. */
  class MyRefCell<T> {
    var value: T
    const state: MyCell<RefState>
    ghost var readers: set<MyRef<T>>
    ghost var writers: set<MyRefMut<T>>

    /** The cell's borrow state and guard counts as a Config. */
    ghost function Current(): Config
      reads this, state
    {
      Config(state.value, |readers|, |writers|)
    }

    ghost predicate Valid()
      reads this, state, readers, writers
    {
      Accounts(Current()) &&
      (forall g | g in readers :: g.cell == this && g.live) &&
      (forall g | g in writers :: g.cell == this && g.live)
    }

    /** `MyRefCell::new`: holds `v`, starts Unshared with no guards. */
    constructor (v: T)
      ensures Valid() && fresh(state)
      ensures value == v && state.value == Unshared
      ensures readers == {} && writers == {}
    {
      value := v;
      state := new MyCell(Unshared);
      readers := {};
      writers := {};
    }

    /** `borrow`: a new shared guard unless an exclusive one is live. */
    method Borrow() returns (g: Option<MyRef<T>>)
      requires Valid()
      modifies this`readers, state
      ensures Valid() && writers == old(writers)
      ensures g.None? <==> old(state.value) == Exclusive
      ensures Step(old(Current()), BorrowCall) == Some(Current())
      ensures g.None? ==> readers == old(readers)
      ensures g.Some? ==> fresh(g.value) && g.value.Valid() && g.value.cell == this &&
                          readers == old(readers) + {g.value}
    {
      var s := state.Get();
      match s
      case Unshared =>
        state.Set(Shared(1));
        var r := new MyRef(this);
        readers := readers + {r};
        g := Some(r);
      case Shared(n) =>
        state.Set(Shared(n + 1));
        var r := new MyRef(this);
        readers := readers + {r};
        g := Some(r);
      case Exclusive =>
        g := None;
    }

    /** `borrow_mut`: a new exclusive guard only when no guard is live. */
    method BorrowMut() returns (g: Option<MyRefMut<T>>)
      requires Valid()
      modifies this`writers, state
      ensures Valid() && readers == old(readers)
      ensures g.Some? <==> old(state.value) == Unshared
      ensures Step(old(Current()), BorrowMutCall) == Some(Current())
      ensures g.None? ==> writers == old(writers)
      ensures g.Some? ==> fresh(g.value) && g.value.Valid() && g.value.cell == this &&
                          writers == old(writers) + {g.value}
    {
      var s := state.Get();
      match s
      case Unshared =>
        state.Set(Exclusive);
        var w := new MyRefMut(this);
        writers := writers + {w};
        g := Some(w);
      case _ =>
        g := None;
    }

    /** `replace`: swaps in `x` through an exclusive guard and returns the
        previous value. The source panics when a guard is live, so here the
        cell must be Unshared. */
    method Replace(x: T) returns (prev: T)
      requires Valid() && state.value == Unshared
      modifies this, state
      ensures Valid() && prev == old(value) && value == x
      ensures state.value == Unshared
      ensures readers == old(readers) && writers == old(writers)
      ensures Current() == old(Current())
    {
      var g := BorrowMut();
      if g.None? {
        assert false;
      }
      var w := g.value;
      prev := w.Deref();
      w.Write(x);
      w.Drop();
    }
  }

  /** A shared guard (`MyRef`). */
  class MyRef<T> {
    const cell: MyRefCell<T>
    ghost var live: bool

    ghost predicate Valid()
      reads this, cell, cell.state, cell.readers, cell.writers
    {
      live && this in cell.readers && cell.Valid()
    }

    /** `MyRef::new`. The guard counts toward the cell's bookkeeping only once
      `Borrow` registers it in `readers`; only a registered guard is Valid. */
    constructor (cell: MyRefCell<T>)
      ensures this.cell == cell && live
    {
      this.cell := cell;
      live := true;
    }

    /** `Deref::deref`: the cell's current value. */
    method Deref() returns (v: T)
      requires Valid()
      ensures v == cell.value
    {
      v := cell.value;
    }

    /** `Drop::drop`: Shared(1) becomes Unshared and Shared(n) Shared(n-1). */
    method Drop()
      requires Valid()
      modifies this, cell`readers, cell.state
      ensures !live && cell.Valid()
      ensures cell.readers == old(cell.readers) - {this}
      ensures cell.state.value == AfterRefDrop(old(cell.state.value))
      ensures Step(old(cell.Current()), DropRefCall) == Some(cell.Current())
    {
      var s := cell.state.Get();
      match s
      case Unshared =>
        assert false;
      case Exclusive =>
        assert false;
      case Shared(n) =>
        if n == 1 {
          cell.state.Set(Unshared);
        } else {
          cell.state.Set(Shared(n - 1));
        }
        cell.readers := cell.readers - {this};
        live := false;
    }
  }

  /** An exclusive guard (`MyRefMut`). */
  class MyRefMut<T> {
    const cell: MyRefCell<T>
    ghost var live: bool

    ghost predicate Valid()
      reads this, cell, cell.state, cell.readers, cell.writers
    {
      live && this in cell.writers && cell.Valid()
    }

    /** `MyRefMut::new`. The guard counts toward the cell's bookkeeping only
      once `BorrowMut` registers it in `writers`; only a registered guard is
      Valid. */
    constructor (cell: MyRefCell<T>)
      ensures this.cell == cell && live
    {
      this.cell := cell;
      live := true;
    }

    /** `Deref::deref`: the cell's current value. */
    method Deref() returns (v: T)
      requires Valid()
      ensures v == cell.value
    {
      v := cell.value;
    }

    /** `DerefMut::deref_mut` followed by an assignment through it
        (`*guard = v`): only the cell's value changes. */
    method Write(v: T)
      requires Valid()
      modifies cell`value
      ensures Valid() && cell.value == v
      ensures cell.Current() == old(cell.Current())
    {
      cell.value := v;
    }

    /** `Drop::drop`: Exclusive becomes Unshared. */
    method Drop()
      requires Valid()
      modifies this, cell`writers, cell.state
      ensures !live && cell.Valid()
      ensures cell.writers == old(cell.writers) - {this}
      ensures cell.state.value == Unshared
      ensures Step(old(cell.Current()), DropRefMutCall) == Some(cell.Current())
    {
      var s := cell.state.Get();
      match s
      case Unshared =>
        assert false;
      case Shared(_) =>
        assert false;
      case Exclusive =>
        cell.state.Set(AfterRefMutDrop(s));
        cell.writers := cell.writers - {this};
        live := false;
    }
  }

  /** The first block of the module's test, with a `borrow_mut` attempt
      added while both shared guards are live, which the test itself does
      not make: the two guards read the stored value and keep `borrow_mut`
      out; dropping them leaves the cell unborrowed. */
  method ReadTwice<T>(cell: MyRefCell<T>) returns (first: T, second: T, busy: bool)
    requires cell.Valid() && cell.state.value == Unshared
    modifies cell`readers, cell`writers, cell.state
    ensures cell.Valid() && cell.state.value == Unshared
    ensures first == cell.value && second == cell.value && busy
  {
    var b1 := cell.Borrow();
    var r1 := b1.value;
    first := r1.Deref();
    var b2 := cell.Borrow();
    var r2 := b2.value;
    second := r2.Deref();
    var m := cell.BorrowMut();
    busy := m.None?;
    r2.Drop();
    r1.Drop();
  }

  /** One `borrow_mut` scope of the test: a write through the exclusive
      guard, which is then dropped. */
  method WriteOnce<T>(cell: MyRefCell<T>, v: T)
    requires cell.Valid() && cell.state.value == Unshared
    modifies cell`value, cell`writers, cell.state
    ensures cell.Valid() && cell.state.value == Unshared
    ensures cell.value == v
  {
    var bm := cell.BorrowMut();
    var w := bm.value;
    w.Write(v);
    w.Drop();
  }

  /** One `borrow` scope of the test: a read through a shared guard, which is
      then dropped. */
  method ReadOnce<T>(cell: MyRefCell<T>) returns (v: T)
    requires cell.Valid() && cell.state.value == Unshared
    modifies cell`readers, cell.state
    ensures cell.Valid() && cell.state.value == Unshared
    ensures v == cell.value
  {
    var b := cell.Borrow();
    var r := b.value;
    v := r.Deref();
    r.Drop();
  }

  /** The module's test from start to end: a new cell holding `v1` is read
      by two shared guards at once, a write of `v2` through an exclusive
      guard is what the next read sees, and `replace(v3)` returns `v2` and
      leaves `v3` for the next read. */
  method ReadWriteReplace<T>(v1: T, v2: T, v3: T)
    returns (first: T, second: T, busy: bool, written: T, replaced: T, last: T)
    ensures first == v1 && second == v1 && busy
    ensures written == v2
    ensures replaced == v2 && last == v3
  {
    var cell := new MyRefCell(v1);
    first, second, busy := ReadTwice(cell);
    WriteOnce(cell, v2);
    written := ReadOnce(cell);
    replaced := cell.Replace(v3);
    last := ReadOnce(cell);
  }
}
