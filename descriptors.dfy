/**
 * The descriptor of one target property (RequestProperty) and the
 * insertion-ordered map from absolute property path to descriptor that the
 * directive parser fills (a LinkedHashMap in collectContent).
 */
module Descriptors {
  import opened Wrappers
  import opened Strings

  /** Where a property's value is copied or moved from (the @CopyFrom / @MoveFrom source). */
  datatype Source = Source(sourcePath: string, isMove: bool)

  /** The fields of a RequestProperty that the parser sets. */
  datatype RequestProperty = RequestProperty(
    path: string,
    values: seq<string>,
    typeHint: Option<string>,
    defaultValues: seq<string>,
    delete: bool,
    repositorySource: Option<Source>,
    ignoreBlanks: bool,
    useDefaultWhenMissing: bool)
  {
    predicate HasValues() {
      |values| > 0
    }
  }

  /** `new RequestProperty(path)`: no values and no directive applied yet. */
  function NewRequestProperty(path: string): RequestProperty {
    RequestProperty(path, [], None, [], false, None, false, false)
  }

  /** The value of an insertion-ordered map: its keys in first-insertion order and its entries. */
  datatype Descriptors = Descriptors(order: seq<string>, props: map<string, RequestProperty>)
  {
    /** Keys are listed once each, exactly the keys of the map, and each descriptor knows its own path. */
    ghost predicate Valid() {
      && (forall i, j :: 0 <= i < j < |order| ==> order[i] != order[j])
      && (forall k :: k in props <==> k in order)
      && (forall k :: k in props ==> props[k].path == k)
    }
  }

  function EmptyDescriptors(): Descriptors {
    Descriptors([], map[])
  }

  /** The key getOrCreateRequestProperty looks up: the path with the given suffix removed, if it ends with it. */
  function StripSuffix(path: string, suffix: Option<string>): (key: string)
    ensures suffix.Some? && EndsWith(path, suffix.value) ==> key + suffix.value == path
    ensures suffix.None? || !EndsWith(path, suffix.value) ==> key == path
  {
    if suffix.Some? && EndsWith(path, suffix.value) then
      EndsWithTail(path, suffix.value);
      path[..|path| - |suffix.value|]
    else path
  }

  /** The map after looking up `key` and creating its descriptor when absent. */
  function GetOrCreate(d: Descriptors, key: string): Descriptors {
    if key in d.props then d
    else Descriptors(d.order + [key], d.props[key := NewRequestProperty(key)])
  }

  /** The descriptor GetOrCreate yields for `key`: the existing one, else a new one. */
  function DescriptorFor(d: Descriptors, key: string): RequestProperty {
    if key in d.props then d.props[key] else NewRequestProperty(key)
  }

  /**
   * The upsert adds at most one key, at the end, never reorders the keys
   * already present, reuses an existing descriptor and keeps the map valid.
   */
  lemma GetOrCreateUpsert(d: Descriptors, key: string)
    requires d.Valid()
    ensures GetOrCreate(d, key).Valid()
    ensures key in GetOrCreate(d, key).props
    ensures GetOrCreate(d, key).props[key] == DescriptorFor(d, key)
    ensures key in d.props ==> GetOrCreate(d, key) == d
    ensures key !in d.props ==> GetOrCreate(d, key).order == d.order + [key]
    ensures forall k :: k in d.props ==> k in GetOrCreate(d, key).props && GetOrCreate(d, key).props[k] == d.props[k]
  {
    if key !in d.props {
      var r := GetOrCreate(d, key);
      forall i, j | 0 <= i < j < |r.order| ensures r.order[i] != r.order[j] {
        if j == |d.order| {
          assert r.order[i] == d.order[i];
        }
      }
    }
  }

  /**
   * The LinkedHashMap<String, RequestProperty> that collectContent fills:
   * `order` holds the keys in insertion order, `props` the entries.
   */
  class PropertyMap {
    var order: seq<string>
    var props: map<string, RequestProperty>

    function Value(): Descriptors
      reads this
    {
      Descriptors(order, props)
    }

    constructor ()
      ensures Value() == EmptyDescriptors()
    {
      order := [];
      props := map[];
    }

    /**
     * getOrCreateRequestProperty: strip `suffix` from `paramName`, then return
     * the key of the existing descriptor or of one created and put at the end.
     */
    method GetOrCreateRequestProperty(paramName: string, suffix: Option<string>) returns (key: string)
      modifies this
      ensures key == StripSuffix(paramName, suffix)
      ensures key in props
      ensures Value() == GetOrCreate(old(Value()), key)
    {
      key := paramName;
      if suffix.Some? && EndsWith(key, suffix.value) {
        key := key[..|key| - |suffix.value|];
      }
      if key !in props {
        props := props[key := NewRequestProperty(key)];
        order := order + [key];
      }
    }

    /** Writes back a descriptor whose setters the parser called (collectContent mutates it in place). */
    method Update(key: string, prop: RequestProperty)
      requires key in props
      modifies this
      ensures order == old(order)
      ensures props == old(props)[key := prop]
    {
      props := props[key := prop];
    }
  }
}
