/** Python's own equality, closed: it is equality once every number is written in
    one form, and no NaN equals anything. */
module WireForms {
  import opened Wire

  /** The value with each bool and each whole float written as an int, at any depth. */
  function OneForm(v: Json): Json {
    match v
    case Bool(b) => Int(if b then 1 else 0)
    case Float(Finite(x)) => if x == x.Floor as real then Int(x.Floor) else v
    case List(items) => List(seq(|items|, i requires 0 <= i < |items| => OneForm(items[i])))
    case Dict(members) => Dict(map k | k in members :: OneForm(members[k]))
    case _ => v
  }

  lemma {:induction false} LooseIff(a: Json, b: Json)
    ensures LooseEqual(a, b) <==> OneForm(a) == OneForm(b) && NaNFree(a) && NaNFree(b)
  {
    if a.Dict? && b.Dict? {
      var m, n := a.members, b.members;
      forall k | k in m && k in n
        ensures LooseEqual(m[k], n[k]) <==> OneForm(m[k]) == OneForm(n[k]) && NaNFree(m[k]) && NaNFree(n[k])
      {
        LooseIff(m[k], n[k]);
      }
      DictForms(m, n);
    } else if a.List? && b.List? {
      var x, y := a.items, b.items;
      forall i | 0 <= i < |x| && i < |y|
        ensures LooseEqual(x[i], y[i]) <==> OneForm(x[i]) == OneForm(y[i]) && NaNFree(x[i]) && NaNFree(y[i])
      {
        LooseIff(x[i], y[i]);
      }
      ListForms(x, y);
    } else {
      NumberForms(a, b);
    }
  }

  lemma DictForms(m: map<string, Json>, n: map<string, Json>)
    ensures OneForm(Dict(m)) == OneForm(Dict(n)) <==>
      m.Keys == n.Keys && forall k | k in m && k in n :: OneForm(m[k]) == OneForm(n[k])
  {
    var x, y := OneForm(Dict(m)).members, OneForm(Dict(n)).members;
    assert x.Keys == m.Keys && y.Keys == n.Keys;
    assert forall k | k in m :: x[k] == OneForm(m[k]);
    assert forall k | k in n :: y[k] == OneForm(n[k]);
  }

  lemma ListForms(x: seq<Json>, y: seq<Json>)
    ensures OneForm(List(x)) == OneForm(List(y)) <==>
      |x| == |y| && forall i | 0 <= i < |x| && i < |y| :: OneForm(x[i]) == OneForm(y[i])
  {
    var s, t := OneForm(List(x)).items, OneForm(List(y)).items;
    assert |s| == |x| && |t| == |y|;
    assert forall i | 0 <= i < |x| :: s[i] == OneForm(x[i]);
    assert forall i | 0 <= i < |y| :: t[i] == OneForm(y[i]);
  }

  lemma NumberForms(a: Json, b: Json)
    requires !(a.Dict? && b.Dict?) && !(a.List? && b.List?)
    ensures LooseEqual(a, b) <==> OneForm(a) == OneForm(b) && NaNFree(a) && NaNFree(b)
  {
    FormOf(a);
    FormOf(b);
    TypedEqualIsStructural(a, b);
  }

  function Whole(x: real): Json {
    if x == x.Floor as real then Int(x.Floor) else Json.Float(Finite(x))
  }

  lemma FormOf(v: Json)
    ensures Numeric(v).Some? ==> NaNFree(v) && OneForm(v) == Whole(Numeric(v).value)
    ensures Numeric(v).None? && !v.List? && !v.Dict? ==> OneForm(v) == v
    ensures v.List? ==> OneForm(v).List?
    ensures v.Dict? ==> OneForm(v).Dict?
  {}
}
