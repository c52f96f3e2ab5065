/**
 * The raw primitive every guarded cell wraps: `core::mem::ManuallyDrop<T>`.
 * Its operations neither check nor fire anything. Besides the payload, a slot
 * keeps two bookkeeping counts that exist only in the model: how often the
 * payload's destructor ran, and how often the payload was moved out.
 */
module Raw {

  datatype Slot<T> = Slot(value: T, dropped: nat, moved: nat)

  /** `ManuallyDrop::new`. */
  function New<T>(v: T): Slot<T> {
    Slot(v, 0, 0)
  }

  /** `ManuallyDrop::drop`: run the payload's destructor in place; the bytes stay. */
  function Drop<T>(s: Slot<T>): Slot<T> {
    s.(dropped := s.dropped + 1)
  }

  /** `ManuallyDrop::take` / `ptr::read`: move the payload out; the bytes stay. */
  function Take<T>(s: Slot<T>): (T, Slot<T>) {
    (s.value, s.(moved := s.moved + 1))
  }

  /** A write through the `&mut T` that `deref_mut` hands out. */
  function Update<T>(s: Slot<T>, update: T -> T): Slot<T> {
    s.(value := update(s.value))
  }

  /** How many times ownership of the payload has been given up. */
  function Releases<T>(s: Slot<T>): nat {
    s.dropped + s.moved
  }
}
