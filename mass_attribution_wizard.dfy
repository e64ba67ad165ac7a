/**
 * The mass-attribution wizard of the renderer (`MassAttribution`): four
 * steps, a selection of individuals, a field and a new value.
 */
module MassAttributionWizard {
  import opened Text

  /** An individual as the wizard lists it. */
  datatype Person = Person(id: int, nom: string, prenom: string)

  /** The step titles; the wizard's steps are their indices. */
  const Steps: seq<string> := ["Sélection des individus", "Sélection du champ", "Nouvelle valeur", "Confirmation"]

  /** The individuals whose `prenom nom`, lower-cased, contains the lower-cased search term. */
  function Filtered(people: seq<Person>, term: string): (r: seq<Person>)
    ensures forall p :: p in r <==> p in people && Contains(Lower(p.prenom + " " + p.nom), Lower(term))
    ensures |r| <= |people|
  {
    if people == [] then []
    else
      var p := people[|people| - 1];
      Filtered(people[..|people| - 1], term) + (if Contains(Lower(p.prenom + " " + p.nom), Lower(term)) then [p] else [])
  }

  /** The ids of a list of individuals, as `new Set(list.map(i => i.id))`. */
  function Ids(people: seq<Person>): (r: set<int>)
    ensures forall id :: id in r <==> exists p :: p in people && p.id == id
  {
    if people == [] then {}
    else Ids(people[..|people| - 1]) + {people[|people| - 1].id}
  }

  /** Membership of `id` flipped. */
  function Toggled(s: set<int>, id: int): (r: set<int>)
    ensures id in r <==> id !in s
    ensures forall x :: x != id ==> (x in r <==> x in s)
  {
    if id in s then s - {id} else s + {id}
  }

  lemma ToggleTwice(s: set<int>, id: int)
    ensures Toggled(Toggled(s, id), id) == s
  {
  }

  /** The `disabled` condition of Next. */
  function NextDisabled(step: nat, selected: set<int>, field: string, value: string): (r: bool)
    ensures step == 0 ==> (r <==> selected == {})
    ensures step == 1 ==> (r <==> field == [])
    ensures step == 2 ==> (r <==> IsBlank(value))
    ensures step >= 3 ==> !r
  {
    (step == 0 && |selected| == 0) || (step == 1 && field == []) || (step == 2 && Trim(value) == [])
  }

  /** The wizard's state. */
  class Wizard {
    var activeStep: nat
    var individus: seq<Person>
    var selected: set<int>
    var searchTerm: string
    var selectedField: string
    var newValue: string

    ghost predicate Valid()
      reads this
    {
      activeStep < |Steps|
    }

    constructor(people: seq<Person>)
      ensures Valid() && activeStep == 0 && individus == people && selected == {}
      ensures searchTerm == [] && selectedField == [] && newValue == []
    {
      activeStep := 0;
      individus := people;
      selected := {};
      searchTerm := [];
      selectedField := [];
      newValue := [];
    }

    /** `handleNext`: one step forward, never past the last. */
    method Next()
      requires Valid()
      modifies this
      ensures Valid()
      ensures activeStep == if old(activeStep) < |Steps| - 1 then old(activeStep) + 1 else old(activeStep)
      ensures selected == old(selected) && individus == old(individus) && searchTerm == old(searchTerm)
      ensures selectedField == old(selectedField) && newValue == old(newValue)
    {
      if activeStep < |Steps| - 1 {
        activeStep := activeStep + 1;
      }
    }

    /** `handleBack`: one step back, never before the first. */
    method Back()
      requires Valid()
      modifies this
      ensures Valid()
      ensures activeStep == if old(activeStep) > 0 then old(activeStep) - 1 else old(activeStep)
      ensures selected == old(selected) && individus == old(individus) && searchTerm == old(searchTerm)
      ensures selectedField == old(selectedField) && newValue == old(newValue)
    {
      if activeStep > 0 {
        activeStep := activeStep - 1;
      }
    }

    /** `toggleIndividuSelection`. */
    method Toggle(id: int)
      modifies this
      ensures selected == Toggled(old(selected), id)
      ensures activeStep == old(activeStep) && individus == old(individus) && searchTerm == old(searchTerm)
      ensures selectedField == old(selectedField) && newValue == old(newValue)
    {
      if id in selected {
        selected := selected - {id};
      } else {
        selected := selected + {id};
      }
    }

    /** `handleSelectAll`: exactly the ids of the listed individuals. */
    method SelectAll()
      modifies this
      ensures selected == Ids(Filtered(individus, searchTerm))
      ensures activeStep == old(activeStep) && individus == old(individus) && searchTerm == old(searchTerm)
      ensures selectedField == old(selectedField) && newValue == old(newValue)
    {
      selected := Ids(Filtered(individus, searchTerm));
    }

    /** `handleDeselectAll`. */
    method DeselectAll()
      modifies this
      ensures selected == {}
      ensures activeStep == old(activeStep) && individus == old(individus) && searchTerm == old(searchTerm)
      ensures selectedField == old(selectedField) && newValue == old(newValue)
    {
      selected := {};
    }
  }

  /** After "select all", an id is selected exactly when a listed individual carries it. */
  lemma SelectAllExact(people: seq<Person>, term: string, id: int)
    ensures id in Ids(Filtered(people, term)) <==>
      exists p :: p in people && p.id == id && Contains(Lower(p.prenom + " " + p.nom), Lower(term))
  {
  }
}
