# Inspector auto-assign: a Dafny model

This project models the decision logic of the `AutoAssignmentObjectField`
property drawer of InspectorAutoAssigner, a Unity editor extension. The
drawer handles every `GameObject` or `Component` field of any inspected
object. Array and `List<>` fields are drawn as usual, without a button.
Every other field gets a search button. Pressing it does nothing unless the
inspected object is a MonoBehaviour; otherwise it does the following:

- It collects candidates. For a `GameObject` field these are the host
  GameObject followed by all its descendants, depth-first, each child before
  its own subtree. For a field of a component type they are what the
  component search under the host returns.
- It cleans the field name: everything up to and including the first `_`
  is dropped, so `m_player` and `_player` both become `player`.
- It then acts on the candidates:
  - no candidate: it shows a "not found" message;
  - one candidate: it assigns it;
  - several: it assigns the first one whose name matches the cleaned field
    name, or opens a picker listing all of them. The match is case-sensitive
    for `GameObject` fields and ignores case for component fields, where the
    name compared is that of the component's GameObject.
- In the picker, clicking row `i` assigns the `i`-th object.

The model is in four modules:

- `Wrappers` holds `Option`.
- `Hierarchy` holds the scene tree (`GameObject`, `Component`), its
  pre-order walk `PreOrder` and the lemmas about that walk.
- `Naming` holds `IndexOf`, `CleanPropertyName`, the two name-match
  predicates and the first-match search `FindFirst`.
- `AutoAssignment` holds the outcome datatype, the pure specification
  `ButtonPressOutcome`, and the imperative drawer. In the drawer,
  `GetChildGameObjects` appends to a list object, `HandleButtonPress` and
  `OnGUI` update a `SerializedProperty` object, and the picker is a
  `SelectorPopup` class. Each imperative method is proved to agree with the
  specification. The lemmas state the promised behaviour about the
  specification.

GameObjects are values here. Their instance ids are assumed unique, so two
equal `GameObject` values are the same scene object. The first-match
results are stated by position in the candidate list, so they do not
depend on that assumption.

Three points about the code are worth stating:

- GameObject names are compared case-sensitively (`==`). Only component
  fields lower-case both names before comparing.
- The component branch is guarded by `IsSubclassOf(typeof(Component))`,
  which is false for `Component` itself. A field declared as plain
  `Component` gets the button, but pressing it does nothing. The model
  (`ComponentField` gives `NoOp`) keeps that behaviour.
- The `GameObject` branch checks for an empty candidate list, but that list
  always holds the host. The branch is kept in `HandleButtonPress`, and
  `GameObjectFieldNeverNotFound` proves it is never taken.

## Model

| member | source | states |
|---|---|---|
| `Naming.IndexOf` | Packages/src/Editor/AutoAssignmentObjectField.cs:109 | the result is -1 exactly when the character is absent; otherwise it is a position holding the character with no earlier occurrence |
| `Naming.CleanPropertyName` | Packages/src/Editor/AutoAssignmentObjectField.cs:107-113 | a name without `_` is unchanged; otherwise the result is what follows the first `_`; it is always a suffix of the name and never longer, and strictly shorter when a `_` is present |
| `Naming.FindFirst` | Packages/src/Editor/AutoAssignmentObjectField.cs:106-116 | a found index holds an element satisfying the predicate and no earlier one does; nothing is found exactly when no element satisfies it |
| `Naming.LowerAt` | Packages/src/Editor/AutoAssignmentObjectField.cs:159 | lower-casing keeps the length and lower-cases each character in place |
| `Naming.LowerCharFoldsAsciiCase` | Packages/src/Editor/AutoAssignmentObjectField.cs:159 | two characters lower-case alike exactly when they are equal or are the upper and lower case of one ASCII letter |
| `Naming.ComponentMatchIgnoresCase` | Packages/src/Editor/AutoAssignmentObjectField.cs:159 | for all names: the component match holds exactly when the names have the same length and agree letter by letter once lower-cased; an exact match is also a case-insensitive one |
| `Hierarchy.PreOrderAllAppend` | Packages/src/Editor/AutoAssignmentObjectField.cs:189-197 | walking two runs of siblings gives the walk of the first followed by the walk of the second |
| `Hierarchy.PreOrderAllSnoc` | Packages/src/Editor/AutoAssignmentObjectField.cs:191-196 | walking one more child appends that child and then its own subtree, the order of one loop iteration |
| `Hierarchy.ChildBlock` | Packages/src/Editor/AutoAssignmentObjectField.cs:191-196 | each child's subtree is one contiguous block of the walk, after the blocks of the earlier siblings and before those of the later ones |
| `Hierarchy.PreOrderLength` | Packages/src/Editor/AutoAssignmentObjectField.cs:89-92 | the candidate list has one entry per GameObject of the subtree: 1 + the number of descendants |
| `Hierarchy.PreOrderAllLength` | Packages/src/Editor/AutoAssignmentObjectField.cs:189-197 | the walk below a parent has one entry per descendant |
| `Hierarchy.PreOrderMembers` | Packages/src/Editor/AutoAssignmentObjectField.cs:89-92 | an object is a candidate exactly when it is the host or one of its descendants |
| `Hierarchy.PreOrderAllMembers` | Packages/src/Editor/AutoAssignmentObjectField.cs:189-197 | the walk below a parent lists exactly the children and their descendants |
| `AutoAssignment.ObjectList.Add` | Packages/src/Editor/AutoAssignmentObjectField.cs:193 | appends one element and keeps the earlier ones |
| `AutoAssignment.GetChildGameObjects` | Packages/src/Editor/AutoAssignmentObjectField.cs:189-197 | only appends: the old entries are kept, and exactly the parent's descendants in pre-order are added after them |
| `AutoAssignment.CollectGameObjects` | Packages/src/Editor/AutoAssignmentObjectField.cs:89-92 | the candidates are the host first, then its descendants in pre-order; the list length is the subtree size |
| `AutoAssignment.AssignValue` | Packages/src/Editor/AutoAssignmentObjectField.cs:178-184 | the property's reference slot holds the given object; its name and owner cannot change |
| `AutoAssignment.HandleButtonPress` | Packages/src/Editor/AutoAssignmentObjectField.cs:77-173 | the step-by-step handler ends with the outcome the specification gives; the property changes only when that outcome is an assignment, and then to the assigned object |
| `AutoAssignment.OnGUI` | Packages/src/Editor/AutoAssignmentObjectField.cs:13-25 | array and list fields, and frames without a click, do nothing and leave the property unchanged; a click on any other field runs the handler |
| `AutoAssignment.SelectorPopup.constructor` | Packages/src/Editor/AutoAssignmentObjectFieldPopup.cs:26-29 | the picker keeps the property and the object list it was opened with |
| `AutoAssignment.SelectorPopup.ChooseRow` | Packages/src/Editor/AutoAssignmentObjectFieldPopup.cs:73-77 | choosing row `i` assigns the `i`-th listed object |
| `AutoAssignment.GameObjectFieldNeverNotFound` | Packages/src/Editor/AutoAssignmentObjectField.cs:89-97 | for a `GameObject` field the button always assigns or opens the picker; the "not found" message is unreachable |
| `AutoAssignment.LeafHostAssignsItself` | Packages/src/Editor/AutoAssignmentObjectField.cs:98-102 | a host without children is assigned to its own `GameObject` field whatever the field is called |
| `AutoAssignment.SeveralCandidates` | Packages/src/Editor/AutoAssignmentObjectField.cs:89-92 | a host with children yields more than one candidate |
| `AutoAssignment.GameObjectOutcomeFirstMatch` | Packages/src/Editor/AutoAssignmentObjectField.cs:103-126 | with several candidates, a candidate is assigned exactly when one has the cleaned name (case-sensitive); the assigned one is the first such; otherwise the picker lists all candidates |
| `AutoAssignment.GameObjectFieldFirstMatch` | Packages/src/Editor/AutoAssignmentObjectField.cs:86-127 | for a host with children there are several candidates; the first GameObject in pre-order with the cleaned field name is assigned, and a GameObject is assigned exactly when one has that name; otherwise the picker lists the host and all its descendants |
| `AutoAssignment.ComponentFieldNotFound` | Packages/src/Editor/AutoAssignmentObjectField.cs:133-139 | no component found shows the "not found" message for the field's type and assigns nothing |
| `AutoAssignment.ComponentFieldSingle` | Packages/src/Editor/AutoAssignmentObjectField.cs:141-146 | a single component found is assigned whatever its name |
| `AutoAssignment.ComponentOutcomeFirstMatch` | Packages/src/Editor/AutoAssignmentObjectField.cs:148-171 | with several components, one is assigned exactly when some GameObject name equals the cleaned name ignoring case; the assigned one is the first such; otherwise the picker lists all components |
| `AutoAssignment.ComponentFieldFirstMatch` | Packages/src/Editor/AutoAssignmentObjectField.cs:148-171 | with several components, one is assigned exactly when some GameObject name equals the cleaned field name ignoring case; the assigned one is the first such; otherwise the picker lists all components |
| `AutoAssignment.GameObjectOutcomeFromCandidates` | Packages/src/Editor/AutoAssignmentObjectField.cs:98-126 | a `GameObject` field assigns one of its candidates, and its picker lists exactly the candidates |
| `AutoAssignment.ComponentOutcomeFromCandidates` | Packages/src/Editor/AutoAssignmentObjectField.cs:141-171 | a component field assigns one of the components found, and its picker lists exactly those components |
| `AutoAssignment.AssignedIsCandidate` | Packages/src/Editor/AutoAssignmentObjectField.cs:77-173 | a non-MonoBehaviour target, a plain `Component` field or a collection field does nothing; whatever is assigned or offered in the picker is a candidate: the host or a descendant, or one of the components found |

## Left out

- Drawing and layout: the rectangle arithmetic of `DrawObjectFieldWithButton`, the indent save and restore, the button texture and `EditorGUI.PropertyField`. `OnGUI` keeps only the choice between a plain field and a field with the button. Whether the button was clicked is an input.
- The picker's window: its size, the scroll view, pinging an object and closing the window. Only "row `i` assigns object `i`" is modelled. The message popup only displays text, so its message is an abstract `Message` value and the Japanese texts are not reproduced.
- `ApplyModifiedProperties`: serialization is Unity's. Assigning a value is modelled as the update of the reference slot.
- Unity reflection: the field's declared type is the `FieldType` datatype, and "is the target a MonoBehaviour" is the `TargetObject` datatype.
- `GetComponentsInChildren`: it is a Unity query, so its result is an arbitrary input sequence. The model does not tie it to the host's hierarchy. A `null` result is treated like an empty array, as the code does.
- `PopupWindow.Show`: opening a popup is the `ShowPicker` or `ShowMessage` outcome that the handler returns.
- `Naming.Lower`: `ToLower` depends on the current culture; the model lower-cases ASCII letters only and leaves every other character unchanged.
- Unity's overloaded `null` for destroyed objects is not modelled: every candidate is a live object.
- The search predicates compute the cleaned name again for each candidate. The model computes it once per button press (`ButtonPressOutcome` passes it to `GameObjectOutcome` and `ComponentOutcome`); the value is the same.
