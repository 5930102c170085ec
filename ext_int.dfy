/** Integers extended with +infinity: the `float('inf')` sentinel of the
    library, used as "no path yet", "no edge" and "no bottleneck yet".
    Only comparison, addition and minimum are ever applied to it. */
module ExtInts {

  datatype ExtInt = Fin(v: int) | Inf

  /** Python's `<` on numbers where `inf` is larger than every integer. */
  predicate Less(a: ExtInt, b: ExtInt) {
    match (a, b)
    case (Fin(x), Fin(y)) => x < y
    case (Fin(_), Inf) => true
    case (Inf, _) => false
  }

  predicate LessEq(a: ExtInt, b: ExtInt) {
    !Less(b, a)
  }

  /** Python's `+`: anything plus `inf` is `inf`. */
  function Add(a: ExtInt, b: ExtInt): (r: ExtInt)
    ensures r.Inf? <==> a.Inf? || b.Inf?
  {
    if a.Fin? && b.Fin? then Fin(a.v + b.v) else Inf
  }

  function Min(a: ExtInt, b: ExtInt): (r: ExtInt)
    ensures LessEq(r, a) && LessEq(r, b)
    ensures r == a || r == b
  {
    if Less(b, a) then b else a
  }

  lemma {:induction false} LessEqTrans(a: ExtInt, b: ExtInt, c: ExtInt)
    requires LessEq(a, b) && LessEq(b, c)
    ensures LessEq(a, c)
  {
  }

  lemma {:induction false} AddAssoc(a: ExtInt, b: ExtInt, c: ExtInt)
    ensures Add(Add(a, b), c) == Add(a, Add(b, c))
  {
  }

  /** Adding the same amount keeps a non-strict comparison. */
  lemma {:induction false} AddMonotone(a: ExtInt, b: ExtInt, c: ExtInt)
    requires LessEq(a, b)
    ensures LessEq(Add(a, c), Add(b, c))
  {
  }
}
