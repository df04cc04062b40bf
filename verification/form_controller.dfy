/**
 * The form controller: an ordered list of sections, the form model with the
 * controller's change listener, whole-form validation, a swappable
 * error-display strategy, and the process-wide view-id counter.
 */
module FormControllers {
  import opened FormParts
  import opened FormQueries
  import opened ErrorDisplay

  // ---------------------------------------------------------------------------
  // Listener registration: remove, then add.

  /** The listener list after removing `l` once and then adding it. */
  function Register(ls: seq<ListenerId>, l: ListenerId): seq<ListenerId>
  {
    RemoveFirst(ls, l) + [l]
  }

  /**
   * Registering leaves `l` present once if it was absent, at its old
   * multiplicity otherwise, and every other listener's multiplicity as it was.
   */
  lemma RegisterCounts(ls: seq<ListenerId>, l: ListenerId, other: ListenerId)
    ensures multiset(Register(ls, l))[l] == if multiset(ls)[l] == 0 then 1 else multiset(ls)[l]
    ensures other != l ==> multiset(Register(ls, l))[other] == multiset(ls)[other]
  {
    RemoveFirstTakesOne(ls, l);
  }

  lemma {:induction false} RemoveFirstOfAppended(r: seq<ListenerId>, l: ListenerId)
    requires l !in r
    ensures RemoveFirst(r + [l], l) == r
  {
    if r != [] {
      assert (r + [l])[1..] == r[1..] + [l];
      RemoveFirstOfAppended(r[1..], l);
    }
  }

  /** Once the listener is registered at most once, registering it again changes nothing. */
  lemma RegisterIdempotent(ls: seq<ListenerId>, l: ListenerId)
    requires multiset(ls)[l] <= 1
    ensures Register(Register(ls, l), l) == Register(ls, l)
  {
    var r: seq<ListenerId> := RemoveFirst(ls, l);
    RemoveFirstTakesOne(ls, l);
    assert multiset(r)[l] == 0;
    RemoveFirstOfAppended(r, l);
  }

  /** The listener list after `k` registrations of `l`. */
  function RegisterTimes(ls: seq<ListenerId>, l: ListenerId, k: nat): seq<ListenerId>
  {
    if k == 0 then ls else Register(RegisterTimes(ls, l, k - 1), l)
  }

  /** However many times a form re-registers, its listener is present exactly once. */
  lemma {:induction false} RegisterTimesOnce(ls: seq<ListenerId>, l: ListenerId, k: nat)
    requires multiset(ls)[l] <= 1 && k >= 1
    ensures multiset(RegisterTimes(ls, l, k))[l] == 1
  {
    if k > 1 {
      RegisterTimesOnce(ls, l, k - 1);
    }
    RegisterCounts(RegisterTimes(ls, l, k - 1), l, l);
  }

  // ---------------------------------------------------------------------------
  // View identifiers.

  /** Ids with the high byte set belong to generated resources; generated ids stay below. */
  const MaxViewId: int := 0x00FF_FFFF

  /** The counter value after handing out `v`: the next id, rolling over to 1, never to 0. */
  function NextViewId(v: int): (r: int)
    ensures 0 <= v ==> 1 <= r
    ensures v <= MaxViewId ==> r <= MaxViewId
  {
    if v + 1 > MaxViewId then 1 else v + 1
  }

  /** The id handed out by the call after `k` earlier calls, from a counter seeded with 1. */
  function IdAfter(k: nat): int
  {
    if k == 0 then 1 else NextViewId(IdAfter(k - 1))
  }

  /** The ids run 1, 2, ..., MaxViewId, then start again at 1. */
  lemma {:induction false} IdAfterCycles(k: nat)
    ensures IdAfter(k) == k % MaxViewId + 1
  {
    if k > 0 {
      IdAfterCycles(k - 1);
      var q, r := (k - 1) / MaxViewId, (k - 1) % MaxViewId;
      assert k == q * MaxViewId + r + 1;
      if r == MaxViewId - 1 {
        assert k == (q + 1) * MaxViewId;
      } else {
        assert k % MaxViewId == r + 1;
      }
    }
  }

  /** Every handed-out id lies in [1, MaxViewId]; ids repeat only after MaxViewId calls. */
  lemma IdsInRangeAndDistinct(i: nat, j: nat)
    ensures 1 <= IdAfter(i) <= MaxViewId
    ensures i < j < i + MaxViewId ==> IdAfter(i) != IdAfter(j)
    ensures IdAfter(i + MaxViewId) == IdAfter(i)
  {
    IdAfterCycles(i);
    IdAfterCycles(j);
    IdAfterCycles(i + MaxViewId);
    if i < j < i + MaxViewId {
      var qi, qj := i / MaxViewId, j / MaxViewId;
      assert i == qi * MaxViewId + i % MaxViewId;
      assert j == qj * MaxViewId + j % MaxViewId;
      if i % MaxViewId == j % MaxViewId {
        assert false;
      }
    }
    assert i + MaxViewId == (i / MaxViewId + 1) * MaxViewId + i % MaxViewId;
  }

  /** The process-wide counter behind `generateViewId`, seeded with 1. */
  class ViewIdGenerator {
    var nextGeneratedViewId: int
    ghost var issued: nat

    ghost predicate Valid()
      reads this
    {
      nextGeneratedViewId == IdAfter(issued)
    }

    constructor ()
      ensures Valid() && issued == 0 && nextGeneratedViewId == 1
    {
      nextGeneratedViewId, issued := 1, 0;
    }

    /** Hands out the current value and advances the counter, rolling over to 1. */
    method GenerateViewId() returns (id: int)
      requires Valid()
      modifies this
      ensures Valid() && issued == old(issued) + 1
      ensures id == old(nextGeneratedViewId) && nextGeneratedViewId == NextViewId(id)
      ensures 1 <= id <= MaxViewId
    {
      id := nextGeneratedViewId;
      var newValue := id + 1;
      if newValue > MaxViewId {
        newValue := 1;
      }
      nextGeneratedViewId := newValue;
      issued := issued + 1;
      IdsInRangeAndDistinct(old(issued), 0);
    }
  }

  // ---------------------------------------------------------------------------
  // The controller.

  /** The error-display strategy: the default per-field display, or a host's own. */
  datatype ErrorDisplayMethod = PerField(display: PerFieldValidationErrorDisplay) | Custom(id: nat)

  /** A call the controller made on its display strategy. */
  datatype Handoff =
    | ShowErrorsCall(target: ErrorDisplayMethod, errors: seq<ValidationError>)
    | ResetErrorsCall(target: ErrorDisplayMethod)

  class FormController {
    var sections: seq<FormSection>
    var model: FormModel
    /** Identity of the controller's own change listener. */
    const modelListener: ListenerId
    var validationErrorDisplay: ErrorDisplayMethod
    /** Every call handed to a display strategy, oldest first. */
    ghost var handoffs: seq<Handoff>

    /** The controller's listener is registered on its model exactly once. */
    ghost predicate Valid()
      reads this`model, model
    {
      multiset(model.listeners)[modelListener] == 1
    }

    /** Creates a fresh model, registers the listener on it and installs the per-field display. */
    constructor (resources: Resources, modelListener: ListenerId)
      ensures Valid() && fresh(model) && model.listeners == [modelListener]
      ensures sections == [] && handoffs == []
      ensures validationErrorDisplay.PerField? && fresh(validationErrorDisplay.display)
      ensures validationErrorDisplay.display.resources == resources
    {
      sections := [];
      this.modelListener := modelListener;
      handoffs := [];
      model := new FormModel();
      var display := new PerFieldValidationErrorDisplay(resources);
      validationErrorDisplay := PerField(display);
      new;
      RegisterFormModelListener();
    }

    /** Removes the listener once, then adds it, so that it is never registered twice. */
    method RegisterFormModelListener()
      modifies model
      ensures model.listeners == Register(old(model.listeners), modelListener)
      ensures multiset(model.listeners)[modelListener] ==
              if old(multiset(model.listeners)[modelListener]) == 0 then 1
              else old(multiset(model.listeners)[modelListener])
    {
      model.RemovePropertyChangeListener(modelListener);
      model.AddPropertyChangeListener(modelListener);
      RegisterCounts(old(model.listeners), modelListener, modelListener);
    }

    /** The first section named `name`, or None. */
    method GetSection(name: string) returns (section: Option<FormSection>)
      ensures section == FindSection(sections, name)
    {
      for i := 0 to |sections|
        invariant FindSection(sections, name) == FindSection(sections[i..], name)
      {
        if sections[i].name == name {
          return Some(sections[i]);
        }
        assert sections[i..][1..] == sections[i + 1..];
      }
      return None;
    }

    /** Inserts `section` at `position`, shifting the later sections right. */
    method AddSectionAt(section: FormSection, position: int)
      requires 0 <= position <= |sections|
      modifies this`sections
      ensures sections == old(sections)[..position] + [section] + old(sections)[position..]
    {
      sections := sections[..position] + [section] + sections[position..];
    }

    /** Appends `section` after the existing sections. */
    method AddSection(section: FormSection)
      modifies this`sections
      ensures sections == old(sections) + [section]
    {
      AddSectionAt(section, |sections|);
      assert old(sections)[..|old(sections)|] == old(sections);
    }

    /** The element a section-by-section scan finds first for `name`, or None. */
    method GetElement(name: string) returns (element: Option<FormElement>)
      ensures element == FindElement(sections, name)
    {
      for i := 0 to |sections|
        invariant FindElement(sections, name) == FindElement(sections[i..], name)
      {
        var found := FirstNamed(sections[i].elements, name);
        if found.Some? {
          return found;
        }
        assert sections[i..][1..] == sections[i + 1..];
      }
      return None;
    }

    /** The number of elements over all sections, sections themselves not counted. */
    method GetNumberOfElements() returns (count: int)
      ensures count == ElementCount(sections)
    {
      count := 0;
      for i := 0 to |sections|
        invariant count == ElementCount(sections[..i])
      {
        count := count + |sections[i].elements|;
        assert sections[..i + 1][..i] == sections[..i];
      }
      assert sections[..|sections|] == sections;
    }

    /** The errors of the labeled fields, in section order, then element order. */
    method ValidateInput() returns (errors: seq<ValidationError>)
      ensures errors == CollectErrors(sections)
    {
      errors := [];
      for i := 0 to |sections|
        invariant errors == CollectErrors(sections[..i])
      {
        var section := sections[i];
        for j := 0 to |section.elements|
          invariant errors == CollectErrors(sections[..i]) + SectionErrors(section.elements[..j])
        {
          var element := section.elements[j];
          if element.labeled {
            errors := errors + element.validation;
          }
          assert section.elements[..j + 1][..j] == section.elements[..j];
        }
        assert section.elements[..|section.elements|] == section.elements;
        assert sections[..i + 1][..i] == sections[..i];
      }
      assert sections[..|sections|] == sections;
    }

    /** True exactly when validation reports nothing. */
    method IsValidInput() returns (valid: bool)
      ensures valid <==> CollectErrors(sections) == []
      ensures valid <==> forall s <- sections :: forall e <- s.elements :: e.labeled ==> e.validation == []
    {
      var errors := ValidateInput();
      valid := errors == [];
      CollectErrorsEmpty(sections);
    }

    /**
     * Hands the form's current errors to the strategy set last. What a
     * host's own strategy does with them is not constrained.
     */
    method ShowValidationErrors()
      requires validationErrorDisplay.PerField? ==> AllResolve(sections, CollectErrors(sections))
      modifies this`handoffs, Elements(sections)
      ensures handoffs == old(handoffs) + [ShowErrorsCall(validationErrorDisplay, CollectErrors(sections))]
      ensures validationErrorDisplay.PerField? ==> forall e <- Elements(sections) ::
        e.error == ShownError(sections, validationErrorDisplay.display.resources, CollectErrors(sections), e, old(e.error))
      ensures validationErrorDisplay.PerField? ==>
        forall e <- Elements(sections) :: e.refreshes == old(e.refreshes) && e.model == old(e.model)
    {
      var errors := ValidateInput();
      handoffs := handoffs + [ShowErrorsCall(validationErrorDisplay, errors)];
      match validationErrorDisplay
      case PerField(d) =>
        d.ShowErrors(sections, errors);
      case Custom(_) =>
    }

    /**
     * Asks the strategy set last to clear every error mark. What a host's
     * own strategy does is not constrained.
     */
    method ResetValidationErrors()
      modifies this`handoffs, Elements(sections)
      ensures handoffs == old(handoffs) + [ResetErrorsCall(validationErrorDisplay)]
      ensures validationErrorDisplay.PerField? ==> forall e <- Elements(sections) :: e.error == None
      ensures validationErrorDisplay.PerField? ==>
        forall e <- Elements(sections) :: e.refreshes == old(e.refreshes) && e.model == old(e.model)
    {
      handoffs := handoffs + [ResetErrorsCall(validationErrorDisplay)];
      match validationErrorDisplay
      case PerField(d) =>
        d.ResetErrors(sections);
      case Custom(_) =>
    }

    /** Swaps the error-display strategy; the latest one set is used. */
    method SetValidationErrorsDisplayMethod(displayMethod: ErrorDisplayMethod)
      modifies this`validationErrorDisplay
      ensures validationErrorDisplay == displayMethod
    {
      validationErrorDisplay := displayMethod;
    }

    /** Hands the model to every section and element, then re-registers the listener. */
    method RecreateViews()
      requires Valid()
      modifies model, (set s | s in sections), Elements(sections)
      ensures Valid()
      ensures model.listeners == Register(old(model.listeners), modelListener)
      ensures forall s <- sections :: s.model == model
      ensures forall e <- Elements(sections) :: e.model == model
      ensures forall e <- Elements(sections) :: e.error == old(e.error) && e.refreshes == old(e.refreshes)
    {
      for i := 0 to |sections|
        invariant model.listeners == old(model.listeners)
        invariant forall k :: 0 <= k < i ==> sections[k].model == model
        invariant forall e <- Elements(sections[..i]) :: e.model == model
        invariant forall e <- Elements(sections) :: e.error == old(e.error) && e.refreshes == old(e.refreshes)
      {
        var section := sections[i];
        assert section in sections;
        section.SetModel(model);
        for j := 0 to |section.elements|
          invariant model.listeners == old(model.listeners)
          invariant forall k :: 0 <= k <= i ==> sections[k].model == model
          invariant forall e <- Elements(sections[..i]) :: e.model == model
          invariant forall k :: 0 <= k < j ==> section.elements[k].model == model
          invariant forall e <- Elements(sections) :: e.error == old(e.error) && e.refreshes == old(e.refreshes)
        {
          assert section.elements[j] in section.elements;
          section.elements[j].SetModel(model);
        }
        assert sections[..i + 1] == sections[..i] + [section];
      }
      assert sections[..|sections|] == sections;
      RegisterFormModelListener();
    }

    /** The model listener: refreshes the element named by the change event. */
    method PropertyChange(propertyName: string)
      requires FindElement(sections, propertyName).Some?
      modifies FindElement(sections, propertyName).value
      ensures var e := FindElement(sections, propertyName).value;
        e.refreshes == old(e.refreshes) + 1 && e.error == old(e.error) && e.model == old(e.model)
    {
      var element := GetElement(propertyName);
      element.value.Refresh();
    }
  }
}
