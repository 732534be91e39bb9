/**
 * MyCell (src/cell.rs): a container whose contents are only ever copied out
 * whole or overwritten whole. No reference into the stored value escapes a
 * call, so `Set` through a shared handle cannot be observed half-done.
 */
module Cell {

  class MyCell<T> {
    /** The stored value (the `UnsafeCell<T>` of the source). */
    var value: T

    /** `MyCell::new`: a cell holding `v`. */
    constructor (v: T)
      ensures value == v
    {
      value := v;
    }

    /** `MyCell::set`: unconditionally overwrites the stored value; it has no
        precondition, and its frame is this cell alone. */
    method Set(v: T)
      modifies this
      ensures value == v
    {
      value := v;
    }

    /** `MyCell::get`: a copy of the stored value. It modifies nothing, so two
        calls in a row return the same value. */
    method Get() returns (r: T)
      ensures r == value
    {
      r := value;
    }
  }

  /** The round trip of the cell's own test: `new(v1).get()` gives `v1`, and
      after `set(v2)` `get()` gives `v2`, whatever was stored before. */
  method NewSetGet<T>(v1: T, v2: T) returns (first: T, again: T, second: T)
    ensures first == v1 && again == v1
    ensures second == v2
  {
    var cell := new MyCell(v1);
    first := cell.Get();
    again := cell.Get();
    cell.Set(v2);
    second := cell.Get();
  }
}
