/**
 * The registry of loaded DXF drawings: each `DxfElement` wraps one loaded
 * entity and an optional bounding-box helper; the `DxfLoaderManager` keeps
 * the elements in a list and, keyed by entity uuid, in a dictionary.
 *
 * The scene and the loaded entities are opaque handles: an entity is known
 * only by its uuid.
 */
module DxfLoader {
  import opened Common

  type Uuid = string

  /** A handle on the scene the drawings are added to. */
  datatype Scene = Scene(id: nat)

  /** A loaded drawing, known by its uuid. */
  datatype Entity = Entity(uuid: Uuid)

  /** The bounding-box helper of an element: absent, or present and visible or hidden. */
  datatype BoxHelper = NoHelper | Helper(visible: bool)

  datatype LoaderError =
    | SceneRequired   // a constructor was given no scene
    | LoadRejected    // loading the file failed or produced no entity

  /** Index of the first occurrence of x in s, or -1 (`Array.prototype.indexOf`). */
  function IndexOf<T(==)>(s: seq<T>, x: T): (i: int)
    ensures -1 <= i < |s|
    ensures i == -1 <==> x !in s
    ensures 0 <= i ==> s[i] == x && x !in s[..i]
  {
    if |s| == 0 then -1
    else if s[0] == x then 0
    else
      var rest := IndexOf(s[1..], x);
      if rest == -1 then -1 else rest + 1
  }

  /** `splice(i, 1)` on a list without repeated entries: the others keep their order and stay distinct. */
  lemma SpliceOut<T>(s: seq<T>, i: nat)
    requires i < |s|
    requires forall j, k :: 0 <= j < k < |s| ==> s[j] != s[k]
    ensures var t := s[..i] + s[i + 1..];
      && |t| == |s| - 1
      && (forall k :: 0 <= k < |t| ==> t[k] == if k < i then s[k] else s[k + 1])
      && (forall x :: x in t <==> x in s && x != s[i])
      && (forall j, k :: 0 <= j < k < |t| ==> t[j] != t[k])
  {
    var t := s[..i] + s[i + 1..];
    assert forall k :: 0 <= k < |t| ==> t[k] == if k < i then s[k] else s[k + 1];
    forall x
      ensures x in t <==> x in s && x != s[i]
    {
      if x in s && x != s[i] {
        var k :| 0 <= k < |s| && s[k] == x;
        assert t[if k < i then k else k - 1] == x;
      }
    }
  }

  /** The helper after one toggle: created visible when absent and an entity is loaded, else flipped. */
  function Toggled(helper: BoxHelper, hasEntity: bool): BoxHelper
  {
    match helper
    case NoHelper => if hasEntity then Helper(true) else NoHelper
    case Helper(visible) => Helper(!visible)
  }

  /**
   * A toggle creates a helper only when none exists and an entity is loaded;
   * otherwise it flips an existing helper's visibility.
   */
  lemma ToggledSpec(helper: BoxHelper, hasEntity: bool)
    ensures Toggled(helper, hasEntity).Helper? <==> helper.Helper? || hasEntity
    ensures helper.NoHelper? && hasEntity ==> Toggled(helper, hasEntity).visible
    ensures helper.Helper? ==> Toggled(helper, hasEntity).visible == !helper.visible
  {
  }

  /** Two toggles of an existing helper restore its visibility. */
  lemma ToggleTwiceRestores(helper: BoxHelper, hasEntity: bool)
    requires helper.Helper?
    ensures Toggled(Toggled(helper, hasEntity), hasEntity) == helper
  {
  }

  class DxfElement {
    /** The scene, which is also the root the entity and helper are added to. */
    const scene: Scene
    var entity: Option<Entity>
    var boxHelper: BoxHelper

    constructor (scene: Scene)
      ensures this.scene == scene && entity == None && boxHelper == NoHelper
    {
      this.scene := scene;
      entity := None;
      boxHelper := NoHelper;
    }

    /** `new DxfElement(scene)`: throws when no scene is given. */
    static method Create(scene: Option<Scene>) returns (r: Result<DxfElement, LoaderError>)
      ensures scene.None? <==> r.Err?
      ensures r.Err? ==> r.error == SceneRequired
      ensures r.Ok? ==> && fresh(r.value) && r.value.scene == scene.value
                        && r.value.entity == None && r.value.boxHelper == NoHelper
    {
      if scene.None? {
        return Err(SceneRequired);
      }
      var element := new DxfElement(scene.value);
      r := Ok(element);
    }

    /**
     * Completes a load whose loader produced `loaded` (None when the file was
     * missing, unreadable or without entity): stores and answers the entity,
     * or rejects and leaves the element without one.
     */
    method Load(loaded: Option<Entity>) returns (r: Result<Entity, LoaderError>)
      modifies this`entity
      ensures loaded.Some? ==> r == Ok(loaded.value) && entity == loaded
      ensures loaded.None? ==> r == Err(LoadRejected) && entity == old(entity)
    {
      if loaded.Some? {
        entity := loaded;
        r := Ok(loaded.value);
      } else {
        r := Err(LoadRejected);
      }
    }

    method RemoveBoxHelper()
      modifies this`boxHelper
      ensures boxHelper == NoHelper
    {
      if boxHelper.Helper? {
        boxHelper := NoHelper;
      }
    }

    /** Replaces any helper by a new, visible one; does nothing without an entity. */
    method CreateBoxHelper()
      modifies this`boxHelper
      ensures boxHelper == if entity.Some? then Helper(true) else old(boxHelper)
    {
      if entity.Some? {
        RemoveBoxHelper();
        boxHelper := Helper(true);
      }
    }

    method ToggleBoxHelper()
      modifies this`boxHelper
      ensures boxHelper == Toggled(old(boxHelper), entity.Some?)
    {
      if boxHelper.NoHelper? {
        CreateBoxHelper();
      } else {
        boxHelper := Helper(!boxHelper.visible);
      }
    }
  }

  /**
   * The registry invariant: every stored element has a loaded entity, no
   * element is stored twice, and every dictionary entry is a stored element
   * under its own uuid.
   */
  ghost predicate Registered(elements: seq<DxfElement>, elementMap: map<Uuid, DxfElement>)
    reads elements
  {
    && (forall k :: 0 <= k < |elements| ==> elements[k].entity.Some?)
    && (forall j, k :: 0 <= j < k < |elements| ==> elements[j] != elements[k])
    && (forall u | u in elementMap :: elementMap[u] in elements && elementMap[u].entity == Some(Entity(u)))
  }

  ghost function UuidAt(elements: seq<DxfElement>, k: nat): Uuid
    reads elements[k]
    requires k < |elements| && elements[k].entity.Some?
  {
    elements[k].entity.value.uuid
  }

  /**
   * The list and the dictionary describe the same elements one-to-one: every
   * element is found under its own uuid. As no element is stored twice, this
   * makes the uuids of the stored elements distinct (UuidsDistinct).
   */
  ghost predicate OneToOne(elements: seq<DxfElement>, elementMap: map<Uuid, DxfElement>)
    reads elements
    requires Registered(elements, elementMap)
  {
    forall k :: 0 <= k < |elements| ==>
      UuidAt(elements, k) in elementMap && elementMap[UuidAt(elements, k)] == elements[k]
  }

  lemma UuidsDistinct(elements: seq<DxfElement>, elementMap: map<Uuid, DxfElement>)
    requires Registered(elements, elementMap) && OneToOne(elements, elementMap)
    ensures forall j, k :: 0 <= j < k < |elements| ==> UuidAt(elements, j) != UuidAt(elements, k)
  {
  }

  /**
   * Splicing out one element and deleting its uuid from the dictionary keeps
   * the registry invariant, and keeps a one-to-one registry one-to-one.
   */
  lemma SpliceKeepsRegistry(elements: seq<DxfElement>, elementMap: map<Uuid, DxfElement>, index: nat)
    requires Registered(elements, elementMap) && index < |elements|
    ensures var t := elements[..index] + elements[index + 1..];
            var m := elementMap - {UuidAt(elements, index)};
      && Registered(t, m)
      && elements[index] !in t
      && (OneToOne(elements, elementMap) ==> OneToOne(t, m))
  {
    var t := elements[..index] + elements[index + 1..];
    var m := elementMap - {UuidAt(elements, index)};
    SpliceOut(elements, index);
    forall u | u in m
      ensures m[u] in t && m[u].entity == Some(Entity(u))
    {
      assert elementMap[u].entity == Some(Entity(u)) && elementMap[u] in elements;
    }
    if OneToOne(elements, elementMap) {
      UuidsDistinct(elements, elementMap);
      forall k | 0 <= k < |t|
        ensures UuidAt(t, k) in m && m[UuidAt(t, k)] == t[k]
      {
        var k' := if k < index then k else k + 1;
        assert t[k] == elements[k'] && UuidAt(t, k) == UuidAt(elements, k');
      }
    }
  }

  /**
   * Appending a new element with a loaded entity, and mapping its uuid to it,
   * keeps the registry invariant; with a uuid not yet in the dictionary it
   * also keeps a one-to-one registry one-to-one.
   */
  lemma AppendKeepsRegistry(elements: seq<DxfElement>, elementMap: map<Uuid, DxfElement>, element: DxfElement)
    requires Registered(elements, elementMap)
    requires element !in elements && element.entity.Some?
    ensures var t := elements + [element];
            var m := elementMap[element.entity.value.uuid := element];
      && Registered(t, m)
      && (OneToOne(elements, elementMap) && element.entity.value.uuid !in elementMap ==> OneToOne(t, m))
  {
    var t := elements + [element];
    var m := elementMap[element.entity.value.uuid := element];
    assert forall k :: 0 <= k < |elements| ==> t[k] == elements[k];
    if OneToOne(elements, elementMap) && element.entity.value.uuid !in elementMap {
      forall k | 0 <= k < |t|
        ensures UuidAt(t, k) in m && m[UuidAt(t, k)] == t[k]
      {
        if k < |elements| {
          assert UuidAt(t, k) == UuidAt(elements, k);
        }
      }
    }
  }

  class DxfLoaderManager {
    const scene: Scene
    var elements: seq<DxfElement>
    var elementMap: map<Uuid, DxfElement>

    ghost predicate Valid()
      reads this, elements
    {
      Registered(elements, elementMap)
    }

    ghost predicate Consistent()
      reads this, elements
      requires Valid()
    {
      OneToOne(elements, elementMap)
    }

    constructor (scene: Scene)
      ensures this.scene == scene && elements == [] && elementMap == map[]
      ensures Valid() && Consistent()
    {
      this.scene := scene;
      elements := [];
      elementMap := map[];
    }

    /** `new DxfLoaderManager(scene)`: throws when no scene is given. */
    static method Create(scene: Option<Scene>) returns (r: Result<DxfLoaderManager, LoaderError>)
      ensures scene.None? <==> r.Err?
      ensures r.Err? ==> r.error == SceneRequired
      ensures r.Ok? ==> && fresh(r.value) && r.value.scene == scene.value
                        && r.value.elements == [] && r.value.elementMap == map[]
                        && r.value.Valid() && r.value.Consistent()
    {
      if scene.None? {
        return Err(SceneRequired);
      }
      var manager := new DxfLoaderManager(scene.value);
      r := Ok(manager);
    }

    /**
     * Adds the element for a file whose loading produced `loaded` (None when
     * the load was rejected, in which case nothing is stored).
     */
    method AddElement(loaded: Option<Entity>) returns (r: Result<Entity, LoaderError>)
      requires Valid()
      modifies this
      ensures Valid()
      ensures loaded.None? ==> r == Err(LoadRejected) && elements == old(elements) && elementMap == old(elementMap)
      ensures loaded.Some? ==>
        && r == Ok(loaded.value)
        && |elements| == |old(elements)| + 1
        && elements[..|old(elements)|] == old(elements)
        && fresh(elements[|old(elements)|])
        && elements[|old(elements)|].scene == scene
        && elements[|old(elements)|].entity == loaded
        && elements[|old(elements)|].boxHelper == NoHelper
        && elementMap == old(elementMap)[loaded.value.uuid := elements[|old(elements)|]]
      ensures loaded.Some? && old(Consistent()) && loaded.value.uuid !in old(elementMap) ==> Consistent()
    {
      ghost var oldElements, oldMap := elements, elementMap;
      ghost var wasConsistent := Consistent();
      var element := new DxfElement(scene);
      r := element.Load(loaded);
      if r.Err? {
        return;
      }
      elements := elements + [element];
      elementMap := elementMap[r.value.uuid := element];
      AppendKeepsRegistry(oldElements, oldMap, element);
    }

    /** Removes the element at a valid index and its dictionary entry; otherwise changes nothing. */
    method RemoveElementByIndex(index: int)
      requires Valid()
      modifies this
      ensures Valid()
      ensures 0 <= index < |old(elements)| ==>
        && elements == old(elements[..index] + elements[index + 1..])
        && elementMap == old(elementMap) - {old(UuidAt(elements, index))}
      ensures !(0 <= index < |old(elements)|) ==> elements == old(elements) && elementMap == old(elementMap)
      ensures old(Consistent()) ==> Consistent()
    {
      if 0 <= index < |elements| {
        ghost var oldElements, oldMap := elements, elementMap;
        elementMap := elementMap - {elements[index].entity.value.uuid};
        elements := elements[..index] + elements[index + 1..];
        SpliceKeepsRegistry(oldElements, oldMap, index);
      }
    }

    /** Removes the element stored under uuid from the list and the dictionary; otherwise changes nothing. */
    method RemoveElementByUUID(uuid: Uuid)
      requires Valid()
      modifies this
      ensures Valid()
      ensures uuid in old(elementMap) ==>
        var i := IndexOf(old(elements), old(elementMap[uuid]));
        && 0 <= i
        && elements == old(elements[..i] + elements[i + 1..])
        && old(elementMap[uuid]) !in elements
        && elementMap == old(elementMap) - {uuid}
      ensures uuid !in old(elementMap) ==> elements == old(elements) && elementMap == old(elementMap)
      ensures old(Consistent()) ==> Consistent()
    {
      if uuid in elementMap {
        var element := elementMap[uuid];
        var index := IndexOf(elements, element);
        ghost var oldElements, oldMap := elements, elementMap;
        if index != -1 {
          elements := elements[..index] + elements[index + 1..];
        }
        elementMap := elementMap - {uuid};
        assert element in oldElements && element.entity == Some(Entity(uuid));
        assert UuidAt(oldElements, index) == uuid;
        SpliceKeepsRegistry(oldElements, oldMap, index);
      }
    }

    /** The element at index, or None when there is none. */
    method GetElementByIndex(index: int) returns (r: Option<DxfElement>)
      ensures r.Some? <==> 0 <= index < |elements|
      ensures r.Some? ==> r.value == elements[index]
    {
      if 0 <= index < |elements| {
        r := Some(elements[index]);
      } else {
        r := None;
      }
    }

    /** The element stored under uuid, or None; a found element is in the list and carries that uuid. */
    method GetElementByUUID(uuid: Uuid) returns (r: Option<DxfElement>)
      requires Valid()
      ensures r.Some? <==> uuid in elementMap
      ensures r.Some? ==> r.value == elementMap[uuid] && r.value in elements && r.value.entity == Some(Entity(uuid))
    {
      if uuid in elementMap {
        r := Some(elementMap[uuid]);
      } else {
        r := None;
      }
    }

    /** Toggles the helper of every stored element once. */
    method ToggleBoxHelpers()
      requires Valid()
      modifies elements
      ensures Valid() && (old(Consistent()) ==> Consistent())
      ensures forall k :: 0 <= k < |elements| ==> elements[k].entity == old(elements[k].entity)
      ensures forall k :: 0 <= k < |elements| ==>
        elements[k].boxHelper == Toggled(old(elements[k].boxHelper), elements[k].entity.Some?)
    {
      for k := 0 to |elements|
        invariant forall j :: 0 <= j < |elements| ==> elements[j].entity == old(elements[j].entity)
        invariant forall j :: 0 <= j < k ==>
          elements[j].boxHelper == Toggled(old(elements[j].boxHelper), elements[j].entity.Some?)
        invariant forall j :: k <= j < |elements| ==> elements[j].boxHelper == old(elements[j].boxHelper)
      {
        elements[k].ToggleBoxHelper();
      }
    }
  }
}
