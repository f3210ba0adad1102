/** What several parts of the kernel use. */
module Common {

  datatype Option<T> = None | Some(value: T)

  predicate NoRepeats(q: seq<nat>) {
    forall i, j | 0 <= i < j < |q| :: q[i] != q[j]
  }

  /** What is left of a queue when every `x` is taken out. */
  function Without(q: seq<nat>, x: nat): seq<nat> {
    if q == [] then [] else Without(q[..|q| - 1], x) + if q[|q| - 1] == x then [] else [q[|q| - 1]]
  }

  lemma {:induction false} WithoutConcat(a: seq<nat>, b: seq<nat>, x: nat)
    ensures Without(a + b, x) == Without(a, x) + Without(b, x)
  {
    if b == [] {
      assert a + b == a;
    } else {
      WithoutConcat(a, b[..|b| - 1], x);
      assert (a + b)[..|a + b| - 1] == a + b[..|b| - 1];
    }
  }

  lemma {:induction false} WithoutMembers(q: seq<nat>, x: nat)
    ensures forall y :: y in Without(q, x) <==> y in q && y != x
    ensures NoRepeats(q) ==> NoRepeats(Without(q, x))
    ensures x !in q ==> Without(q, x) == q
  {
    if q != [] {
      var rest, last := q[..|q| - 1], q[|q| - 1];
      WithoutMembers(rest, x);
      assert q == rest + [last];
      if NoRepeats(q) {
        forall i | 0 <= i < |Without(rest, x)| ensures Without(rest, x)[i] != last {
          assert Without(rest, x)[i] in rest;
        }
      }
    }
  }
}
