/**
 * The parts of the decoded JSON feed the program looks at. A feed document is
 * `{"map": {"features": [{"geometry": ..., "properties": {"name": "..."}}, ...]}}`;
 * geometry JSON is left abstract (type parameter `J`).
 */
module Feed {
  import opened Wrappers

  /**
   * What a `.get(key, default)` finds: the key is missing (the default is used),
   * the key holds a value of the expected JSON kind, or the key holds a value of
   * another kind (null, a number, ...) on which the next method call raises.
   */
  datatype Field<T> = Absent | Present(value: T) | Mistyped

  datatype Properties = Properties(name: Field<string>)

  /** One feature; `geometry` is None when the feature has no "geometry" key. */
  datatype Feature<J> = Feature(properties: Field<Properties>, geometry: Option<J>)

  datatype MapObject<J> = MapObject(features: Field<seq<Feature<J>>>)

  /**
   * A decoded response body: a JSON object (its "map" entry and how many other
   * keys it has) or some other JSON value, of which only its truthiness matters.
   */
  datatype Document<J> =
    | Object(mapEntry: Field<MapObject<J>>, otherKeys: nat)
    | NotObject(truthy: bool)

  /** Python truthiness of the decoded body: an object is true when it has a key. */
  predicate Truthy<J>(d: Document<J>)
  {
    match d
    case Object(m, others) => !m.Absent? || others > 0
    case NotObject(t) => t
  }

  /** The `{}` the fetcher returns when every attempt failed. */
  function EmptyObject<J>(): (d: Document<J>)
    ensures !Truthy(d)
  {
    Object(Absent, 0)
  }
}
