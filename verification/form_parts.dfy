/**
 * The collaborators of the form controller, abstracted to what the controller
 * and the per-field error display rely on: validation errors, the form model's
 * listener list, form elements (field controllers) and form sections.
 * Their Java sources are not part of this model; each is reduced to the state
 * the core reads or writes.
 */
module FormParts {

  datatype Option<T> = None | Some(value: T)

  /** A failed validation rule: the field it names and an opaque message key. */
  datatype ValidationError = ValidationError(fieldName: string, messageKey: string)

  /**
   * The host's resource bundle, reduced to what `error.getMessage(res)` does
   * with it: turn an error into display text. Nothing is assumed about it.
   */
  type Resources = ValidationError -> string

  /** Identity of a property-change listener object. */
  type ListenerId = nat

  /** `ls` with its first occurrence of `l` dropped; unchanged when `l` is absent. */
  function RemoveFirst(ls: seq<ListenerId>, l: ListenerId): seq<ListenerId>
  {
    if ls == [] then []
    else if ls[0] == l then ls[1..]
    else [ls[0]] + RemoveFirst(ls[1..], l)
  }

  /** Removing a listener takes exactly one copy of it out of the list, if there is one. */
  lemma {:induction false} RemoveFirstTakesOne(ls: seq<ListenerId>, l: ListenerId)
    ensures multiset(RemoveFirst(ls, l)) == multiset(ls) - multiset{l}
  {
    if ls != [] {
      assert ls == [ls[0]] + ls[1..];
      if ls[0] != l {
        RemoveFirstTakesOne(ls[1..], l);
      }
    }
  }

  /**
   * The form model, reduced to its list of property-change listeners.
   * Adding appends; removing drops one occurrence and ignores an absent
   * listener, as java.beans.PropertyChangeSupport does.
   */
  class FormModel {
    var listeners: seq<ListenerId>

    constructor ()
      ensures listeners == []
    {
      listeners := [];
    }

    method AddPropertyChangeListener(l: ListenerId)
      modifies this
      ensures listeners == old(listeners) + [l]
    {
      listeners := listeners + [l];
    }

    method RemovePropertyChangeListener(l: ListenerId)
      modifies this
      ensures listeners == RemoveFirst(old(listeners), l)
    {
      listeners := RemoveFirst(listeners, l);
    }
  }

  /**
   * A form element controller. `labeled` says whether it is a labeled field
   * (the only kind that validates); `validation` is what its `validateInput()`
   * answers. `error` is the visible error mark (None clears it), `refreshes`
   * counts `refresh()` calls and `model` is the model last handed to it.
   */
  class FormElement {
    const name: string
    const labeled: bool
    const validation: seq<ValidationError>
    var error: Option<string>
    var refreshes: nat
    var model: FormModel?

    constructor (name: string, labeled: bool, validation: seq<ValidationError>)
      ensures this.name == name && this.labeled == labeled && this.validation == validation
      ensures error == None && refreshes == 0 && model == null
    {
      this.name, this.labeled, this.validation := name, labeled, validation;
      error, refreshes, model := None, 0, null;
    }

    method SetError(message: Option<string>)
      modifies this`error
      ensures error == message
    {
      error := message;
    }

    method Refresh()
      modifies this`refreshes
      ensures refreshes == old(refreshes) + 1
    {
      refreshes := refreshes + 1;
    }

    method SetModel(m: FormModel)
      modifies this`model
      ensures model == m
    {
      model := m;
    }
  }

  /** A form section: a named, ordered group of elements. */
  class FormSection {
    const name: string
    const elements: seq<FormElement>
    var model: FormModel?

    constructor (name: string, elements: seq<FormElement>)
      ensures this.name == name && this.elements == elements && model == null
    {
      this.name, this.elements := name, elements;
      model := null;
    }

    method SetModel(m: FormModel)
      modifies this`model
      ensures model == m
    {
      model := m;
    }
  }

  /** `es[j]` is the first element of `es` named `n`. */
  predicate FirstMatchAt(es: seq<FormElement>, n: string, j: int)
  {
    0 <= j < |es| && es[j].name == n && forall k :: 0 <= k < j ==> es[k].name != n
  }

  /**
   * A section's `getElement(n)`: a scan in insertion order that answers the
   * first element named `n`, or None.
   */
  function FirstNamed(es: seq<FormElement>, n: string): (r: Option<FormElement>)
    ensures r.Some? ==> r.value in es && r.value.name == n
    ensures r.None? <==> forall e <- es :: e.name != n
  {
    if es == [] then None
    else if es[0].name == n then Some(es[0])
    else FirstNamed(es[1..], n)
  }

  /** When several elements share a name, the earliest one is answered. */
  lemma {:induction false} FirstNamedAt(es: seq<FormElement>, n: string, j: int)
    requires FirstMatchAt(es, n, j)
    ensures FirstNamed(es, n) == Some(es[j])
  {
    if j > 0 {
      assert es[0].name != n;
      FirstNamedAt(es[1..], n, j - 1);
    }
  }
}
