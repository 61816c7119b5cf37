/** The per-protocol handle table (`ConcurrentHandleMap` behind a `lazy_static`), modelled as
    a sequential map from handle to context record. Handles are issued from a counter, so a
    handle that was removed is never issued again. */
module Handles {
  import opened Prelude
  import opened Ffi

  /** A `u64` handle. */
  type Handle = nat

  class HandleMap<T> {
    var entries: map<Handle, T>
    /** The next handle to issue; every handle issued so far is below it. */
    var next: Handle

    ghost predicate Valid()
      reads this
    {
      forall h | h in entries :: h < next
    }

    constructor ()
      ensures Valid() && entries == map[] && next == 0
    {
      entries := map[];
      next := 0;
    }

    /** `insert_with_output`: stores `v` under a handle that has never been issued. */
    method InsertWithOutput(v: T) returns (h: Handle)
      requires Valid()
      modifies this
      ensures Valid()
      ensures h !in old(entries) && h == old(next) && next == h + 1
      ensures entries == old(entries)[h := v]
    {
      h := next;
      entries := entries[h := v];
      next := next + 1;
    }

    /** `call_with_output_mut`: applies the infallible update `f` to the record under `h`, or
        reports an invalid handle and changes nothing. */
    method CallWithOutputMut(h: Handle, f: T -> T) returns (err: ExternError)
      requires Valid()
      modifies this
      ensures Valid() && next == old(next)
      ensures h in old(entries) ==> err == ExternSuccess() && entries == old(entries)[h := f(old(entries)[h])]
      ensures h !in old(entries) ==> err == InvalidHandle() && entries == old(entries)
    {
      if h in entries {
        entries := entries[h := f(entries[h])];
        err := ExternSuccess();
      } else {
        err := InvalidHandle();
      }
    }

    /** `call_with_result_mut`: the closure either fails, leaving the record as it was, or
        returns the record's new value, which is then stored. */
    method CallWithResultMut(h: Handle, f: T -> Outcome<T>) returns (err: ExternError)
      requires Valid()
      modifies this
      ensures Valid() && next == old(next)
      ensures h !in old(entries) ==> err == InvalidHandle() && entries == old(entries)
      ensures h in old(entries) && f(old(entries)[h]).Ok? ==>
                err == ExternSuccess() && entries == old(entries)[h := f(old(entries)[h]).value]
      ensures h in old(entries) && f(old(entries)[h]).Fail? ==>
                err == f(old(entries)[h]).error && entries == old(entries)
    {
      if h in entries {
        var r := f(entries[h]);
        if r.Ok? {
          entries := entries[h := r.value];
          err := ExternSuccess();
        } else {
          err := r.error;
        }
      } else {
        err := InvalidHandle();
      }
    }

    /** `call_with_result`: runs a read-only closure on the record under `h`. */
    method CallWithResult<R>(h: Handle, f: T -> Outcome<R>) returns (res: Outcome<R>)
      ensures h !in entries ==> res == Fail(InvalidHandle())
      ensures h in entries ==> res == f(entries[h])
    {
      if h in entries {
        res := f(entries[h]);
      } else {
        res := Fail(InvalidHandle());
      }
    }

    /** `call_with_output`: runs an infallible read-only closure; `None` stands for the
        invalid-handle case, in which the caller receives the type's FFI default. */
    method CallWithOutput<R>(h: Handle, f: T -> R) returns (res: Option<R>)
      ensures h !in entries ==> res == None
      ensures h in entries ==> res == Some(f(entries[h]))
    {
      if h in entries {
        res := Some(f(entries[h]));
      } else {
        res := None;
      }
    }

    /** `remove_u64`: retires a handle; an unknown handle is an error (code 1 at the call sites). */
    method RemoveU64(h: Handle) returns (err: ExternError)
      requires Valid()
      modifies this
      ensures Valid() && next == old(next)
      ensures h in old(entries) ==> err == ExternSuccess() && entries == old(entries) - {h}
      ensures h !in old(entries) ==> err.code == 1 && entries == old(entries)
    {
      if h in entries {
        entries := entries - {h};
        err := ExternSuccess();
      } else {
        err := Error("InvalidHandle");
      }
    }
  }
}
