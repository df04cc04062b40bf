/**
 * The default error-display strategy: each error marks the element its
 * field name resolves to, and a reset clears every element's mark.
 *
 * In the Java class the display holds a back-reference to its form
 * controller and asks it for its sections and for `getElement`. Here the
 * controller hands its live section list to each call instead, and the
 * lookup is the form's `FindElement`.
 */
module ErrorDisplay {
  import opened FormParts
  import opened FormQueries

  /** The element an error resolves to: the form's answer for its field name. */
  function Target(ss: seq<FormSection>, err: ValidationError): (e: FormElement)
    requires FindElement(ss, err.fieldName).Some?
    ensures e in Elements(ss) && e.name == err.fieldName
  {
    FindElement(ss, err.fieldName).value
  }

  /**
   * The error mark `e` shows after the errors of `errs` were applied in
   * order to a mark that was `prior`.
   */
  function ShownError(ss: seq<FormSection>, res: Resources, errs: seq<ValidationError>,
                      e: FormElement, prior: Option<string>): Option<string>
    requires AllResolve(ss, errs)
  {
    if errs == [] then prior
    else
      var last := errs[|errs| - 1];
      if Target(ss, last) == e then Some(res(last))
      else ShownError(ss, res, errs[..|errs| - 1], e, prior)
  }

  /** Of several errors for one element, the last one in the list is shown. */
  lemma {:induction false} ShownErrorLastWins(ss: seq<FormSection>, res: Resources, errs: seq<ValidationError>,
                                               e: FormElement, prior: Option<string>, j: int)
    requires AllResolve(ss, errs)
    requires 0 <= j < |errs| && Target(ss, errs[j]) == e
    requires forall k :: j < k < |errs| ==> Target(ss, errs[k]) != e
    ensures ShownError(ss, res, errs, e, prior) == Some(res(errs[j]))
  {
    if j < |errs| - 1 {
      var init := errs[..|errs| - 1];
      assert forall k :: j < k < |init| ==> init[k] == errs[k];
      ShownErrorLastWins(ss, res, init, e, prior, j);
    }
  }

  /** An element no error resolves to keeps its mark. */
  lemma {:induction false} ShownErrorUntouched(ss: seq<FormSection>, res: Resources, errs: seq<ValidationError>,
                                                e: FormElement, prior: Option<string>)
    requires AllResolve(ss, errs)
    requires forall k :: 0 <= k < |errs| ==> Target(ss, errs[k]) != e
    ensures ShownError(ss, res, errs, e, prior) == prior
  {
    if errs != [] {
      var init := errs[..|errs| - 1];
      assert forall k :: 0 <= k < |init| ==> init[k] == errs[k];
      ShownErrorUntouched(ss, res, init, e, prior);
    }
  }

  /** Showing errors never clears a mark: a marked element stays marked. */
  lemma {:induction false} ShownErrorNeverClears(ss: seq<FormSection>, res: Resources, errs: seq<ValidationError>,
                                                  e: FormElement, prior: Option<string>)
    requires AllResolve(ss, errs)
    ensures ShownError(ss, res, errs, e, prior) == None ==> prior == None
  {
    if errs != [] && Target(ss, errs[|errs| - 1]) != e {
      ShownErrorNeverClears(ss, res, errs[..|errs| - 1], e, prior);
    }
  }

  class PerFieldValidationErrorDisplay {
    /** The resources of the display's context, used to resolve messages. */
    const resources: Resources

    constructor (resources: Resources)
      ensures this.resources == resources
    {
      this.resources := resources;
    }

    /**
     * Clears the error mark of every element of every section. The new marks
     * do not depend on the old ones, so a second reset changes nothing.
     */
    method ResetErrors(sections: seq<FormSection>)
      modifies Elements(sections)
      ensures forall e <- Elements(sections) :: e.error == None
      ensures forall e <- Elements(sections) :: e.refreshes == old(e.refreshes) && e.model == old(e.model)
    {
      for i := 0 to |sections|
        invariant forall e <- Elements(sections[..i]) :: e.error == None
        invariant forall e <- Elements(sections) :: e.refreshes == old(e.refreshes) && e.model == old(e.model)
      {
        var section := sections[i];
        assert section in sections;
        for j := 0 to |section.elements|
          invariant forall e <- Elements(sections[..i]) :: e.error == None
          invariant forall k :: 0 <= k < j ==> section.elements[k].error == None
          invariant forall e <- Elements(sections) :: e.refreshes == old(e.refreshes) && e.model == old(e.model)
        {
          assert section.elements[j] in section.elements;
          section.elements[j].SetError(None);
        }
        assert sections[..i + 1] == sections[..i] + [section];
      }
      assert sections[..|sections|] == sections;
    }

    /**
     * Marks, error by error in list order, the element each error resolves
     * to with that error's message. Every error must resolve: the lookup's
     * answer is used without a check.
     */
    method ShowErrors(sections: seq<FormSection>, errors: seq<ValidationError>)
      requires AllResolve(sections, errors)
      modifies Elements(sections)
      ensures forall e <- Elements(sections) :: e.error == ShownError(sections, resources, errors, e, old(e.error))
      ensures forall e <- Elements(sections) :: e.refreshes == old(e.refreshes) && e.model == old(e.model)
    {
      for i := 0 to |errors|
        invariant forall e <- Elements(sections) ::
          e.error == ShownError(sections, resources, errors[..i], e, old(e.error))
        invariant forall e <- Elements(sections) :: e.refreshes == old(e.refreshes) && e.model == old(e.model)
      {
        var element := FindElement(sections, errors[i].fieldName).value;
        element.SetError(Some(resources(errors[i])));
        assert errors[..i + 1][..i] == errors[..i];
      }
      assert errors[..|errors|] == errors;
    }
  }
}
