/** Types, constants and facts shared by the modules. */
module Basics {
  type byte = b: int | 0 <= b < 256

  datatype Option<+T> = None | Some(value: T)

  const WRAP32: int := 0x1_0000_0000
  const MAXLINE: nat := 4096

  // ---- who was given what ----

  /** The places in `owners` that are `c`, in order. */
  function Given(owners: seq<nat>, c: nat): seq<nat> {
    if owners == [] then []
    else
      var k := |owners| - 1;
      Given(owners[..k], c) + (if owners[k] == c then [k] else [])
  }

  /** Only these places, and each of them once. */
  lemma {:induction false} GivenMembers(owners: seq<nat>, c: nat, k: nat)
    ensures k in Given(owners, c) <==> k < |owners| && owners[k] == c
    ensures forall i, j | 0 <= i < j < |Given(owners, c)| :: Given(owners, c)[i] < Given(owners, c)[j]
    ensures forall i | 0 <= i < |Given(owners, c)| :: Given(owners, c)[i] < |owners|
  {
    if owners != [] {
      GivenMembers(owners[..|owners| - 1], c, k);
    }
  }

  // ---- descriptors ----

  /** There is always a descriptor that is not open. */
  lemma {:induction false} SomeFree(open: set<int>) returns (fd: int)
    ensures fd >= 0 && fd !in open && forall x | x in open :: x < fd
  {
    if x :| x in open {
      var y := SomeFree(open - {x});
      fd := if x >= y then x + 1 else y;
      assert forall z | z in open :: z == x || z in open - {x};
    } else {
      fd := 0;
    }
  }
}
