/**
 * The decision the inspector's auto-assign button makes for a `GameObject`
 * or `Component` field, and the assignments it performs on the field.
 */
module AutoAssignment {
  import opened Wrappers
  import opened Hierarchy
  import opened Naming

  /** A value an object-reference field can hold. */
  datatype ObjectRef = GameObjectRef(gameObject: GameObject) | ComponentRef(component: Component)

  /**
   * The declared type of the field being drawn. `ComponentField` is the type
   * `Component` itself; `ComponentSubclassField` any type derived from it.
   * `CollectionField` is an array or a `List<>` of either.
   */
  datatype FieldType =
    | GameObjectField
    | ComponentField
    | ComponentSubclassField(typeName: string)
    | CollectionField

  /** The object whose inspector shows the field. */
  datatype TargetObject = MonoBehaviourTarget(gameObject: GameObject) | OtherTarget

  /** The texts of the "not found" popup, kept abstract. */
  datatype Message = GameObjectNotFound | ComponentNotFound(typeName: string)

  /** What one frame of the drawer ends with. */
  datatype Outcome =
    | Assign(value: ObjectRef)
    | ShowPicker(objects: seq<ObjectRef>)
    | ShowMessage(message: Message)
    | NoOp

  /** The serialized field: its name, the object that owns it, and its reference slot. */
  class SerializedProperty {
    const name: string
    const target: TargetObject
    var objectReferenceValue: Option<ObjectRef>

    constructor (name: string, target: TargetObject, value: Option<ObjectRef>)
      ensures this.name == name && this.target == target && objectReferenceValue == value
    {
      this.name := name;
      this.target := target;
      objectReferenceValue := value;
    }
  }

  function GameObjectRefs(objects: seq<GameObject>): (r: seq<ObjectRef>)
  {
    seq(|objects|, i requires 0 <= i < |objects| => GameObjectRef(objects[i]))
  }

  function ComponentRefs(components: seq<Component>): (r: seq<ObjectRef>)
  {
    seq(|components|, i requires 0 <= i < |components| => ComponentRef(components[i]))
  }

  /**
   * The outcome for a `GameObject` field whose candidates, in search order,
   * are `candidates`, and whose name without its prefix is `cleaned`.
   */
  function GameObjectOutcome(candidates: seq<GameObject>, cleaned: string): (outcome: Outcome)
  {
    if |candidates| == 0 then ShowMessage(GameObjectNotFound)
    else if |candidates| == 1 then Assign(GameObjectRef(candidates[0]))
    else
      match FindFirst(candidates, (go: GameObject) => GameObjectNameMatches(go.name, cleaned))
      case Some(i) => Assign(GameObjectRef(candidates[i]))
      case None => ShowPicker(GameObjectRefs(candidates))
  }

  /** The outcome for a field of the component type `typeName`, given what the component search found. */
  function ComponentOutcome(typeName: string, components: seq<Component>, cleaned: string): (outcome: Outcome)
  {
    if |components| == 0 then ShowMessage(ComponentNotFound(typeName))
    else if |components| == 1 then Assign(ComponentRef(components[0]))
    else
      match FindFirst(components, (c: Component) => ComponentNameMatches(c.gameObject.name, cleaned))
      case Some(i) => Assign(ComponentRef(components[i]))
      case None => ShowPicker(ComponentRefs(components))
  }

  /**
   * What pressing the button does. `components` stands for what the
   * component search under the target's GameObject returns.
   */
  function ButtonPressOutcome(target: TargetObject, fieldType: FieldType, components: seq<Component>, propertyName: string): (outcome: Outcome)
  {
    match target
    case OtherTarget => NoOp
    case MonoBehaviourTarget(host) =>
      match fieldType
      case GameObjectField => GameObjectOutcome(PreOrder(host), CleanPropertyName(propertyName))
      case ComponentSubclassField(typeName) => ComponentOutcome(typeName, components, CleanPropertyName(propertyName))
      case ComponentField => NoOp
      case CollectionField => NoOp
  }

  /** The field's reference after `outcome`: only an assignment changes it. */
  function ValueAfter(outcome: Outcome, value: Option<ObjectRef>): (after: Option<ObjectRef>)
  {
    if outcome.Assign? then Some(outcome.value) else value
  }

  /** A list the candidate search appends to. */
  class ObjectList<T> {
    var items: seq<T>

    constructor ()
      ensures items == []
    {
      items := [];
    }

    method Add(x: T)
      modifies this
      ensures items == old(items) + [x]
    {
      items := items + [x];
    }
  }

  /** Appends every GameObject below `parent`, each child followed by its own subtree. */
  method GetChildGameObjects(parent: GameObject, list: ObjectList<GameObject>)
    modifies list
    ensures list.items == old(list.items) + PreOrderAll(parent.children)
    decreases parent
  {
    var children := parent.children;
    for i := 0 to |children|
      invariant list.items == old(list.items) + PreOrderAll(children[..i])
    {
      var child := children[i];
      ghost var before := list.items;
      list.Add(child);
      GetChildGameObjects(child, list);
      assert list.items == before + [child] + PreOrderAll(child.children);
      PreOrderAllSnoc(children[..i], child);
      assert children[..i + 1] == children[..i] + [child];
    }
    assert children[..|children|] == children;
  }

  /** The candidates of a `GameObject` field: the host first, then its descendants in pre-order. */
  method CollectGameObjects(host: GameObject) returns (candidates: seq<GameObject>)
    ensures candidates == PreOrder(host)
    ensures |candidates| == Size(host) && candidates[0] == host
  {
    var list := new ObjectList<GameObject>();
    list.Add(host);
    GetChildGameObjects(host, list);
    candidates := list.items;
    PreOrderLength(host);
  }

  /** Stores `value` in the field's reference slot; nothing else of the property changes. */
  method AssignValue(property: SerializedProperty, value: ObjectRef)
    modifies property
    ensures property.objectReferenceValue == Some(value)
  {
    property.objectReferenceValue := Some(value);
  }

  /** The button's handler: it searches, then assigns, opens the picker or reports that nothing was found. */
  method HandleButtonPress(property: SerializedProperty, fieldType: FieldType, components: seq<Component>)
    returns (outcome: Outcome)
    modifies property
    ensures outcome == ButtonPressOutcome(property.target, fieldType, components, property.name)
    ensures property.objectReferenceValue == ValueAfter(outcome, old(property.objectReferenceValue))
  {
    outcome := NoOp;
    if !property.target.MonoBehaviourTarget? {
      return;
    }
    var gameObject := property.target.gameObject;
    if fieldType.GameObjectField? {
      var gameObjects := CollectGameObjects(gameObject);
      if |gameObjects| == 0 {
        outcome := ShowMessage(GameObjectNotFound);
      } else if |gameObjects| == 1 {
        AssignValue(property, GameObjectRef(gameObjects[0]));
        outcome := Assign(GameObjectRef(gameObjects[0]));
      } else {
        var cleaned := CleanPropertyName(property.name);
        var matching := FindFirst(gameObjects, (go: GameObject) => GameObjectNameMatches(go.name, cleaned));
        if matching.Some? {
          AssignValue(property, GameObjectRef(gameObjects[matching.value]));
          outcome := Assign(GameObjectRef(gameObjects[matching.value]));
        } else {
          outcome := ShowPicker(GameObjectRefs(gameObjects));
        }
      }
    }
    if fieldType.ComponentSubclassField? {
      if |components| == 0 {
        outcome := ShowMessage(ComponentNotFound(fieldType.typeName));
        return;
      }
      if |components| == 1 {
        AssignValue(property, ComponentRef(components[0]));
        outcome := Assign(ComponentRef(components[0]));
        return;
      }
      var cleaned := CleanPropertyName(property.name);
      var matching := FindFirst(components, (c: Component) => ComponentNameMatches(c.gameObject.name, cleaned));
      if matching.Some? {
        AssignValue(property, ComponentRef(components[matching.value]));
        outcome := Assign(ComponentRef(components[matching.value]));
      } else {
        outcome := ShowPicker(ComponentRefs(components));
      }
    }
  }

  /**
   * One frame of the drawer. Arrays and lists get the default field and no
   * button; any other field gets the button, and `buttonPressed` says
   * whether it was clicked in this frame.
   */
  method OnGUI(property: SerializedProperty, fieldType: FieldType, buttonPressed: bool, components: seq<Component>)
    returns (outcome: Outcome)
    modifies property
    ensures fieldType.CollectionField? || !buttonPressed ==> outcome == NoOp
    ensures !fieldType.CollectionField? && buttonPressed ==>
      outcome == ButtonPressOutcome(property.target, fieldType, components, property.name)
    ensures property.objectReferenceValue == ValueAfter(outcome, old(property.objectReferenceValue))
  {
    outcome := NoOp;
    if !fieldType.CollectionField? && buttonPressed {
      outcome := HandleButtonPress(property, fieldType, components);
    }
  }

  /** The picker opened when several candidates match nothing; clicking a row assigns that row's object. */
  class SelectorPopup {
    const property: SerializedProperty
    const objects: seq<ObjectRef>

    constructor (property: SerializedProperty, objects: seq<ObjectRef>)
      ensures this.property == property && this.objects == objects
    {
      this.property := property;
      this.objects := objects;
    }

    method ChooseRow(i: nat)
      requires i < |objects|
      modifies property
      ensures property.objectReferenceValue == Some(objects[i])
    {
      AssignValue(property, objects[i]);
    }
  }

  /** For a `GameObject` field the candidate list is never empty, so "not found" is never shown. */
  lemma GameObjectFieldNeverNotFound(host: GameObject, components: seq<Component>, propertyName: string)
    ensures ButtonPressOutcome(MonoBehaviourTarget(host), GameObjectField, components, propertyName).Assign?
         || ButtonPressOutcome(MonoBehaviourTarget(host), GameObjectField, components, propertyName).ShowPicker?
  {
  }

  /** A host without children is the only candidate, and it is assigned whatever its name. */
  lemma LeafHostAssignsItself(host: GameObject, components: seq<Component>, propertyName: string)
    requires host.children == []
    ensures ButtonPressOutcome(MonoBehaviourTarget(host), GameObjectField, components, propertyName)
         == Assign(GameObjectRef(host))
  {
    assert PreOrder(host) == [host];
  }

  /** A host with children has more than one candidate. */
  lemma {:induction false} SeveralCandidates(host: GameObject)
    requires host.children != []
    ensures |PreOrder(host)| > 1
  {
    assert PreOrderAll(host.children) == PreOrder(host.children[0]) + PreOrderAll(host.children[1..]);
  }

  /**
   * Among several GameObject candidates, one is assigned exactly when some
   * candidate's name equals the cleaned field name, case included; the one
   * assigned is the first such; if there is none, the picker offers all of them.
   */
  lemma GameObjectOutcomeFirstMatch(candidates: seq<GameObject>, cleaned: string)
    requires |candidates| > 1
    ensures GameObjectOutcome(candidates, cleaned).Assign?
        <==> exists k :: 0 <= k < |candidates| && GameObjectNameMatches(candidates[k].name, cleaned)
    ensures forall k :: 0 <= k < |candidates| && GameObjectNameMatches(candidates[k].name, cleaned)
              && (forall j :: 0 <= j < k ==> !GameObjectNameMatches(candidates[j].name, cleaned))
              ==> GameObjectOutcome(candidates, cleaned) == Assign(GameObjectRef(candidates[k]))
    ensures !GameObjectOutcome(candidates, cleaned).Assign?
        ==> GameObjectOutcome(candidates, cleaned) == ShowPicker(GameObjectRefs(candidates))
  {
    var matches := (go: GameObject) => GameObjectNameMatches(go.name, cleaned);
    var found := FindFirst(candidates, matches);
    assert GameObjectOutcome(candidates, cleaned)
        == if found.Some? then Assign(GameObjectRef(candidates[found.value])) else ShowPicker(GameObjectRefs(candidates));
    forall k | 0 <= k < |candidates| && matches(candidates[k]) && (forall j :: 0 <= j < k ==> !matches(candidates[j]))
      ensures found == Some(k)
    {
    }
  }

  /**
   * For a `GameObject` field whose host has children, the host and its
   * descendants in pre-order are chosen from as GameObjectOutcomeFirstMatch
   * says, with the field's name cleaned of its prefix.
   */
  lemma GameObjectFieldFirstMatch(host: GameObject, components: seq<Component>, propertyName: string)
    requires host.children != []
    ensures |PreOrder(host)| > 1
    ensures ButtonPressOutcome(MonoBehaviourTarget(host), GameObjectField, components, propertyName).Assign?
        <==> exists k :: 0 <= k < |PreOrder(host)|
               && GameObjectNameMatches(PreOrder(host)[k].name, CleanPropertyName(propertyName))
    ensures forall k :: 0 <= k < |PreOrder(host)|
              && GameObjectNameMatches(PreOrder(host)[k].name, CleanPropertyName(propertyName))
              && (forall j :: 0 <= j < k ==> !GameObjectNameMatches(PreOrder(host)[j].name, CleanPropertyName(propertyName)))
              ==> ButtonPressOutcome(MonoBehaviourTarget(host), GameObjectField, components, propertyName)
                  == Assign(GameObjectRef(PreOrder(host)[k]))
    ensures !ButtonPressOutcome(MonoBehaviourTarget(host), GameObjectField, components, propertyName).Assign?
        ==> ButtonPressOutcome(MonoBehaviourTarget(host), GameObjectField, components, propertyName)
            == ShowPicker(GameObjectRefs(PreOrder(host)))
  {
    SeveralCandidates(host);
    GameObjectOutcomeFirstMatch(PreOrder(host), CleanPropertyName(propertyName));
  }

  /** For a component field, an empty search result shows the "not found" message for its type. */
  lemma ComponentFieldNotFound(host: GameObject, typeName: string, propertyName: string)
    ensures ButtonPressOutcome(MonoBehaviourTarget(host), ComponentSubclassField(typeName), [], propertyName)
         == ShowMessage(ComponentNotFound(typeName))
  {
  }

  /** A single component found is assigned whatever the name of its GameObject. */
  lemma ComponentFieldSingle(host: GameObject, typeName: string, component: Component, propertyName: string)
    ensures ButtonPressOutcome(MonoBehaviourTarget(host), ComponentSubclassField(typeName), [component], propertyName)
         == Assign(ComponentRef(component))
  {
  }

  /**
   * Among several components, one is assigned exactly when some component's
   * GameObject name equals the cleaned field name ignoring case; the one
   * assigned is the first such; if there is none, the picker offers all of them.
   */
  lemma ComponentOutcomeFirstMatch(typeName: string, components: seq<Component>, cleaned: string)
    requires |components| > 1
    ensures ComponentOutcome(typeName, components, cleaned).Assign?
        <==> exists k :: 0 <= k < |components| && ComponentNameMatches(components[k].gameObject.name, cleaned)
    ensures forall k :: 0 <= k < |components| && ComponentNameMatches(components[k].gameObject.name, cleaned)
              && (forall j :: 0 <= j < k ==> !ComponentNameMatches(components[j].gameObject.name, cleaned))
              ==> ComponentOutcome(typeName, components, cleaned) == Assign(ComponentRef(components[k]))
    ensures !ComponentOutcome(typeName, components, cleaned).Assign?
        ==> ComponentOutcome(typeName, components, cleaned) == ShowPicker(ComponentRefs(components))
  {
    var matches := (c: Component) => ComponentNameMatches(c.gameObject.name, cleaned);
    var found := FindFirst(components, matches);
    assert ComponentOutcome(typeName, components, cleaned)
        == if found.Some? then Assign(ComponentRef(components[found.value])) else ShowPicker(ComponentRefs(components));
    forall k | 0 <= k < |components| && matches(components[k]) && (forall j :: 0 <= j < k ==> !matches(components[j]))
      ensures found == Some(k)
    {
    }
  }

  /** For a component field with several components found, the choice follows ComponentOutcomeFirstMatch. */
  lemma ComponentFieldFirstMatch(host: GameObject, typeName: string, components: seq<Component>, propertyName: string)
    requires |components| > 1
    ensures ButtonPressOutcome(MonoBehaviourTarget(host), ComponentSubclassField(typeName), components, propertyName).Assign?
        <==> exists k :: 0 <= k < |components|
               && ComponentNameMatches(components[k].gameObject.name, CleanPropertyName(propertyName))
    ensures forall k :: 0 <= k < |components|
              && ComponentNameMatches(components[k].gameObject.name, CleanPropertyName(propertyName))
              && (forall j :: 0 <= j < k ==> !ComponentNameMatches(components[j].gameObject.name, CleanPropertyName(propertyName)))
              ==> ButtonPressOutcome(MonoBehaviourTarget(host), ComponentSubclassField(typeName), components, propertyName)
                  == Assign(ComponentRef(components[k]))
    ensures !ButtonPressOutcome(MonoBehaviourTarget(host), ComponentSubclassField(typeName), components, propertyName).Assign?
        ==> ButtonPressOutcome(MonoBehaviourTarget(host), ComponentSubclassField(typeName), components, propertyName)
            == ShowPicker(ComponentRefs(components))
  {
    ComponentOutcomeFirstMatch(typeName, components, CleanPropertyName(propertyName));
  }

  /** A `GameObject` field assigns, or offers in the picker, only its candidates. */
  lemma GameObjectOutcomeFromCandidates(candidates: seq<GameObject>, cleaned: string)
    ensures GameObjectOutcome(candidates, cleaned).Assign? ==>
              GameObjectOutcome(candidates, cleaned).value.GameObjectRef?
              && GameObjectOutcome(candidates, cleaned).value.gameObject in candidates
    ensures GameObjectOutcome(candidates, cleaned).ShowPicker? ==>
              GameObjectOutcome(candidates, cleaned).objects == GameObjectRefs(candidates)
  {
  }

  /** A component field assigns, or offers in the picker, only the components found. */
  lemma ComponentOutcomeFromCandidates(typeName: string, components: seq<Component>, cleaned: string)
    ensures ComponentOutcome(typeName, components, cleaned).Assign? ==>
              ComponentOutcome(typeName, components, cleaned).value in ComponentRefs(components)
    ensures ComponentOutcome(typeName, components, cleaned).ShowPicker? ==>
              ComponentOutcome(typeName, components, cleaned).objects == ComponentRefs(components)
  {
    var outcome := ComponentOutcome(typeName, components, cleaned);
    if outcome.Assign? {
      var i :| 0 <= i < |components| && outcome.value == ComponentRef(components[i]);
      assert ComponentRefs(components)[i] == outcome.value;
    }
  }

  /**
   * The button only ever acts for a MonoBehaviour target and a `GameObject`
   * or derived-component field, and what it assigns or offers in the picker
   * is always a candidate: the host or one of its descendants, or one of the
   * components the search returned.
   */
  lemma AssignedIsCandidate(target: TargetObject, fieldType: FieldType, components: seq<Component>, propertyName: string)
    ensures target.OtherTarget? || fieldType.ComponentField? || fieldType.CollectionField? ==>
              ButtonPressOutcome(target, fieldType, components, propertyName) == NoOp
    ensures var outcome := ButtonPressOutcome(target, fieldType, components, propertyName);
              target.MonoBehaviourTarget? && fieldType.GameObjectField? && outcome.Assign? ==>
                outcome.value.GameObjectRef?
                && (outcome.value.gameObject == target.gameObject || IsDescendant(outcome.value.gameObject, target.gameObject))
    ensures var outcome := ButtonPressOutcome(target, fieldType, components, propertyName);
              target.MonoBehaviourTarget? && fieldType.GameObjectField? && outcome.ShowPicker? ==>
                forall o :: o in outcome.objects ==>
                  o.GameObjectRef? && (o.gameObject == target.gameObject || IsDescendant(o.gameObject, target.gameObject))
    ensures var outcome := ButtonPressOutcome(target, fieldType, components, propertyName);
              fieldType.ComponentSubclassField? && outcome.Assign? ==> outcome.value in ComponentRefs(components)
    ensures var outcome := ButtonPressOutcome(target, fieldType, components, propertyName);
              fieldType.ComponentSubclassField? && outcome.ShowPicker? ==> outcome.objects == ComponentRefs(components)
  {
    var outcome := ButtonPressOutcome(target, fieldType, components, propertyName);
    var cleaned := CleanPropertyName(propertyName);
    if target.MonoBehaviourTarget? && fieldType.GameObjectField? {
      var host := target.gameObject;
      var candidates := PreOrder(host);
      assert outcome == GameObjectOutcome(candidates, cleaned);
      GameObjectOutcomeFromCandidates(candidates, cleaned);
      if outcome.Assign? {
        PreOrderMembers(outcome.value.gameObject, host);
      }
      if outcome.ShowPicker? {
        forall o | o in outcome.objects
          ensures o.GameObjectRef? && (o.gameObject == host || IsDescendant(o.gameObject, host))
        {
          var i :| 0 <= i < |outcome.objects| && outcome.objects[i] == o;
          assert o.gameObject == candidates[i];
          PreOrderMembers(o.gameObject, host);
        }
      }
    }
    if target.MonoBehaviourTarget? && fieldType.ComponentSubclassField? {
      assert outcome == ComponentOutcome(fieldType.typeName, components, cleaned);
      ComponentOutcomeFromCandidates(fieldType.typeName, components, cleaned);
    }
  }
}
