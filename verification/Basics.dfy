/** Small vocabulary shared by every component: optional values, bytes and two orders on integers. */
module Basics {

  datatype Option<+T> = None | Some(value: T)

  datatype Result<+T, +E> = Ok(value: T) | Err(error: E)

  newtype byte = b: int | 0 <= b < 256

  function Min(a: int, b: int): int {
    if a <= b then a else b
  }

  function Max(a: int, b: int): int {
    if a >= b then a else b
  }

  /** `s[lo:hi]` of Python for non-negative bounds: bounds past the end are clipped. */
  function Slice<T>(s: seq<T>, lo: nat, hi: nat): seq<T> {
    var a := Min(lo, |s|);
    var b := Max(a, Min(hi, |s|));
    s[a..b]
  }

  predicate IsMax(x: nat, ids: set<nat>) {
    x in ids && forall y :: y in ids ==> y <= x
  }

  lemma {:induction false} HasMax(ids: set<nat>)
    requires ids != {}
    ensures exists x :: IsMax(x, ids)
  {
    var one :| one in ids;
    var rest := ids - {one};
    assert ids == rest + {one};
    if rest == {} {
      assert IsMax(one, ids);
    } else {
      HasMax(rest);
      var x :| IsMax(x, rest);
      assert IsMax(if x > one then x else one, ids);
    }
  }

  /** The largest of some identifiers. */
  function MaxOf(ids: set<nat>): nat
    requires ids != {}
  {
    HasMax(ids);
    var x :| IsMax(x, ids);
    x
  }

  lemma MaxIsMax(ids: set<nat>)
    requires ids != {}
    ensures IsMax(MaxOf(ids), ids)
  {
    HasMax(ids);
  }
}
