/** Sizes of finite sets, and counting the threads that are in a phase of some kind. */
module FiniteSets {

  /** The numbers below n. */
  ghost function Range(n: nat): set<nat>
  {
    if n == 0 then {} else Range(n - 1) + {n - 1}
  }

  lemma {:induction false} RangeSize(n: nat)
    ensures |Range(n)| == n
    ensures forall x: nat :: x in Range(n) <==> x < n
  {
    if n > 0 {
      RangeSize(n - 1);
    }
  }

  lemma {:induction false} SubsetSize<T>(a: set<T>, b: set<T>)
    requires a <= b
    ensures |a| <= |b|
  {
    if a != {} {
      var x :| x in a;
      SubsetSize(a - {x}, b - {x});
    }
  }

  /** The threads whose phase has the property f. */
  ghost function Those<P>(m: map<nat, P>, f: P -> bool): set<nat>
  {
    set t | t in m.Keys && f(m[t])
  }

  ghost function One(b: bool): nat
  {
    if b then 1 else 0
  }

  lemma ThoseRemove<P>(m: map<nat, P>, t: nat, f: P -> bool)
    requires t in m
    ensures |Those(m - {t}, f)| == |Those(m, f)| - One(f(m[t]))
  {
    assert Those(m - {t}, f) == Those(m, f) - {t};
  }

  lemma ThoseAdd<P>(m: map<nat, P>, t: nat, p: P, f: P -> bool)
    requires t !in m
    ensures |Those(m[t := p], f)| == |Those(m, f)| + One(f(p))
  {
    assert Those(m[t := p], f) == Those(m, f) + if f(p) then {t} else {};
  }

  lemma ThoseUpdate<P>(m: map<nat, P>, t: nat, p: P, f: P -> bool)
    requires t in m
    ensures |Those(m[t := p], f)| == |Those(m, f)| - One(f(m[t])) + One(f(p))
  {
    ThoseRemove(m, t, f);
    ThoseAdd(m - {t}, t, p, f);
    assert (m - {t})[t := p] == m[t := p];
  }
}
