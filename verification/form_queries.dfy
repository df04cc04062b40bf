/**
 * The queries a form controller answers over its ordered list of sections:
 * lookups by name, the element count and the aggregated validation errors.
 * Each is a function on the section list; the controller's methods are
 * proved equal to them, and the lemmas here state what they mean.
 */
module FormQueries {
  import opened FormParts

  /** Every element object held by some section of `ss`. */
  function Elements(ss: seq<FormSection>): set<FormElement>
  {
    set s, e | s in ss && e in s.elements :: e
  }

  /** The first section of `ss` named `n`, or None. */
  function FindSection(ss: seq<FormSection>, n: string): (r: Option<FormSection>)
    ensures r.Some? ==> r.value in ss && r.value.name == n
    ensures r.None? <==> forall s <- ss :: s.name != n
  {
    if ss == [] then None
    else if ss[0].name == n then Some(ss[0])
    else FindSection(ss[1..], n)
  }

  /** `ss[i]` is the first section of `ss` named `n`. */
  predicate FirstSectionAt(ss: seq<FormSection>, n: string, i: int)
  {
    0 <= i < |ss| && ss[i].name == n && forall k :: 0 <= k < i ==> ss[k].name != n
  }

  /** With duplicate section names, the earliest section is answered. */
  lemma {:induction false} FindSectionAt(ss: seq<FormSection>, n: string, i: int)
    requires FirstSectionAt(ss, n, i)
    ensures FindSection(ss, n) == Some(ss[i])
  {
    if i > 0 {
      assert ss[0].name != n;
      FindSectionAt(ss[1..], n, i - 1);
    }
  }

  /** No element of any section of `ss` is named `n`. */
  predicate NoneNamed(ss: seq<FormSection>, n: string)
  {
    forall s <- ss :: forall e <- s.elements :: e.name != n
  }

  /**
   * The element a form answers for `n`: the answer of the first section
   * whose own lookup finds `n`, or None.
   */
  function FindElement(ss: seq<FormSection>, n: string): (r: Option<FormElement>)
    ensures r.Some? ==> r.value in Elements(ss) && r.value.name == n
    ensures r.None? <==> NoneNamed(ss, n)
  {
    if ss == [] then None
    else match FirstNamed(ss[0].elements, n)
      case Some(e) => Some(e)
      case None => FindElement(ss[1..], n)
  }

  /** Element `j` of section `i` is the first element named `n`, in section-then-element order. */
  predicate FirstElementAt(ss: seq<FormSection>, n: string, i: int, j: int)
  {
    && 0 <= i < |ss|
    && FirstMatchAt(ss[i].elements, n, j)
    && forall k :: 0 <= k < i ==> forall e <- ss[k].elements :: e.name != n
  }

  /** With duplicate element names, the earliest section, then the earliest element, wins. */
  lemma {:induction false} FindElementAt(ss: seq<FormSection>, n: string, i: int, j: int)
    requires FirstElementAt(ss, n, i, j)
    ensures FindElement(ss, n) == Some(ss[i].elements[j])
  {
    if i == 0 {
      FirstNamedAt(ss[0].elements, n, j);
    } else {
      assert FirstNamed(ss[0].elements, n) == None;
      FindElementAt(ss[1..], n, i - 1, j);
    }
  }

  /** Sections placed after others never override their answers. */
  lemma {:induction false} FindElementConcat(a: seq<FormSection>, b: seq<FormSection>, n: string)
    ensures FindElement(a + b, n) == if FindElement(a, n).Some? then FindElement(a, n) else FindElement(b, n)
  {
    if a != [] {
      assert (a + b)[0] == a[0];
      assert (a + b)[1..] == a[1..] + b;
      FindElementConcat(a[1..], b, n);
    } else {
      assert a + b == b;
    }
  }

  /** Every error in `errs` names an element the form can find. */
  predicate AllResolve(ss: seq<FormSection>, errs: seq<ValidationError>)
  {
    forall err <- errs :: FindElement(ss, err.fieldName).Some?
  }

  /** The sum over `ss` of each section's number of elements. */
  function ElementCount(ss: seq<FormSection>): nat
  {
    if ss == [] then 0
    else ElementCount(ss[..|ss| - 1]) + |ss[|ss| - 1].elements|
  }

  /** The count of a list of sections splits over any division of that list. */
  lemma {:induction false} ElementCountConcat(a: seq<FormSection>, b: seq<FormSection>)
    ensures ElementCount(a + b) == ElementCount(a) + ElementCount(b)
  {
    if b == [] {
      assert a + b == a;
    } else {
      assert (a + b)[..|a + b| - 1] == a + b[..|b| - 1];
      ElementCountConcat(a, b[..|b| - 1]);
    }
  }

  /** The errors contributed by `es`: labeled fields' own errors, in element order. */
  function SectionErrors(es: seq<FormElement>): seq<ValidationError>
  {
    if es == [] then []
    else SectionErrors(es[..|es| - 1]) + (if es[|es| - 1].labeled then es[|es| - 1].validation else [])
  }

  /** The errors of a whole form: each section's contribution, in section order. */
  function CollectErrors(ss: seq<FormSection>): seq<ValidationError>
  {
    if ss == [] then []
    else CollectErrors(ss[..|ss| - 1]) + SectionErrors(ss[|ss| - 1].elements)
  }

  /** Aggregation over a list of sections is the concatenation over any division of it. */
  lemma {:induction false} CollectErrorsConcat(a: seq<FormSection>, b: seq<FormSection>)
    ensures CollectErrors(a + b) == CollectErrors(a) + CollectErrors(b)
  {
    if b == [] {
      assert a + b == a;
    } else {
      assert (a + b)[..|a + b| - 1] == a + b[..|b| - 1];
      CollectErrorsConcat(a, b[..|b| - 1]);
    }
  }

  /** `err` is one of the errors of a labeled field among `es`. */
  predicate FieldReports(es: seq<FormElement>, err: ValidationError)
  {
    exists e <- es :: e.labeled && err in e.validation
  }

  /** A section reports exactly the errors of its labeled fields. */
  lemma {:induction false} SectionErrorsMembers(es: seq<FormElement>, err: ValidationError)
    ensures err in SectionErrors(es) <==> FieldReports(es, err)
  {
    if es != [] {
      var init, last := es[..|es| - 1], es[|es| - 1];
      assert es == init + [last];
      SectionErrorsMembers(init, err);
      if FieldReports(es, err) && !FieldReports(init, err) {
        var e :| e in es && e.labeled && err in e.validation;
        assert e == last;
      }
    }
  }

  /** A form reports exactly the errors of the labeled fields of its sections. */
  lemma {:induction false} CollectErrorsMembers(ss: seq<FormSection>, err: ValidationError)
    ensures err in CollectErrors(ss) <==> exists s <- ss :: FieldReports(s.elements, err)
  {
    if ss != [] {
      var init, last := ss[..|ss| - 1], ss[|ss| - 1];
      assert ss == init + [last];
      CollectErrorsMembers(init, err);
      SectionErrorsMembers(last.elements, err);
      if exists s <- ss :: FieldReports(s.elements, err) {
        var s :| s in ss && FieldReports(s.elements, err);
        assert s in init || s == last;
      }
    }
  }

  /** A form has no errors exactly when none of its labeled fields reports one. */
  lemma CollectErrorsEmpty(ss: seq<FormSection>)
    ensures CollectErrors(ss) == [] <==>
            forall s <- ss :: forall e <- s.elements :: e.labeled ==> e.validation == []
  {
    if CollectErrors(ss) != [] {
      CollectErrorsMembers(ss, CollectErrors(ss)[0]);
    } else {
      forall s <- ss, e <- s.elements | e.labeled
        ensures e.validation == []
      {
        if e.validation != [] {
          assert FieldReports(s.elements, e.validation[0]);
          CollectErrorsMembers(ss, e.validation[0]);
        }
      }
    }
  }

  /** Every labeled field of `ss` reports errors under its own name only. */
  predicate SelfNamedErrors(ss: seq<FormSection>)
  {
    forall s <- ss :: forall e <- s.elements :: e.labeled ==> forall err <- e.validation :: err.fieldName == e.name
  }

  /**
   * When fields report errors under their own names, every aggregated error
   * can be mapped back to an element of the form.
   */
  lemma CollectedErrorsResolve(ss: seq<FormSection>)
    requires SelfNamedErrors(ss)
    ensures AllResolve(ss, CollectErrors(ss))
  {
    forall err <- CollectErrors(ss)
      ensures FindElement(ss, err.fieldName).Some?
    {
      CollectErrorsMembers(ss, err);
      var s :| s in ss && FieldReports(s.elements, err);
      var e :| e in s.elements && e.labeled && err in e.validation;
      assert !NoneNamed(ss, err.fieldName);
    }
  }
}
