/** The orders the source's sorts use: chronological order on months,
    Python's code-point order on strings, and the lexicographic order on
    the composite keys of a two-column group-by. */
module Orders {
  import opened Months

  /** Irreflexive and transitive: enough to make a strictly sorted sequence
      unique and duplicate-free. */
  ghost predicate StrictOrder<T(!new)>(less: (T, T) -> bool) {
    && (forall a :: !less(a, a))
    && (forall a, b, c :: less(a, b) && less(b, c) ==> less(a, c))
  }

  /** A strict order in which any two different values are comparable. */
  ghost predicate StrictTotalOrder<T(!new)>(less: (T, T) -> bool) {
    && StrictOrder(less)
    && (forall a, b :: a == b || less(a, b) || less(b, a))
  }

  lemma MonthLessIsTotal()
    ensures StrictTotalOrder(MonthLess)
  {
  }

  /** Integer order, used for the YEAR column. */
  predicate IntLess(a: int, b: int) {
    a < b
  }

  lemma IntLessIsTotal()
    ensures StrictTotalOrder(IntLess)
  {
  }

  /** Python's `<` on strings: compare code points left to right; a proper
      prefix comes first. */
  predicate StrLess(a: string, b: string) {
    if |a| == 0 then |b| > 0
    else if |b| == 0 then false
    else if a[0] != b[0] then a[0] < b[0]
    else StrLess(a[1..], b[1..])
  }

  lemma {:induction false} StrLessIrreflexive(a: string)
    ensures !StrLess(a, a)
  {
    if |a| > 0 {
      StrLessIrreflexive(a[1..]);
    }
  }

  lemma {:induction false} StrLessTransitive(a: string, b: string, c: string)
    requires StrLess(a, b) && StrLess(b, c)
    ensures StrLess(a, c)
  {
    if |a| > 0 && a[0] == b[0] && b[0] == c[0] {
      StrLessTransitive(a[1..], b[1..], c[1..]);
    }
  }

  lemma {:induction false} StrLessTrichotomy(a: string, b: string)
    ensures a == b || StrLess(a, b) || StrLess(b, a)
  {
    if |a| > 0 && |b| > 0 && a[0] == b[0] {
      StrLessTrichotomy(a[1..], b[1..]);
      if a[1..] == b[1..] {
        assert a == [a[0]] + a[1..] && b == [b[0]] + b[1..];
      }
    }
  }

  lemma StrLessIsTotal()
    ensures StrictTotalOrder(StrLess)
  {
    forall a: string ensures !StrLess(a, a) {
      StrLessIrreflexive(a);
    }
    forall a: string, b: string, c: string | StrLess(a, b) && StrLess(b, c)
      ensures StrLess(a, c)
    {
      StrLessTransitive(a, b, c);
    }
    forall a: string, b: string ensures a == b || StrLess(a, b) || StrLess(b, a) {
      StrLessTrichotomy(a, b);
    }
  }

  /** Lexicographic order on pairs: by the first component, then the second.
      This is the order pandas' two-key `groupby` sorts its groups in. */
  function Lex<A(==), B>(la: (A, A) -> bool, lb: (B, B) -> bool): ((A, B), (A, B)) -> bool {
    (p: (A, B), q: (A, B)) => la(p.0, q.0) || (p.0 == q.0 && lb(p.1, q.1))
  }

  lemma LexIsTotal<A(!new), B(!new)>(la: (A, A) -> bool, lb: (B, B) -> bool)
    requires StrictTotalOrder(la) && StrictTotalOrder(lb)
    ensures StrictTotalOrder(Lex(la, lb))
  {
    var less := Lex(la, lb);
    forall p: (A, B), q: (A, B)
      ensures less(p, q) == (la(p.0, q.0) || (p.0 == q.0 && lb(p.1, q.1)))
    {
    }
    forall p: (A, B), q: (A, B), r: (A, B) | less(p, q) && less(q, r)
      ensures less(p, r)
    {
    }
    forall p: (A, B), q: (A, B) ensures p == q || less(p, q) || less(q, p) {
    }
  }
}
