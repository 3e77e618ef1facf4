/** JSON documents as Python holds them after parsing; `Null` is also what `dict.get` answers for a
    missing key. */
module Json {
  type Map = map<string, Value>

  datatype Value =
    | Null
    | Bool(b: bool)
    | Number(n: int)
    | Text(s: string)
    | List(items: seq<Value>)
    | Object(fields: Map)

  /** `m.get(key)` */
  function Get(m: Map, key: string): Value {
    if key in m then m[key] else Null
  }

  /** `_project_like_expected`: the part of `live` that `expected` has, or `Null` where the shapes differ. */
  function Project(expected: Value, live: Value): Value {
    match expected
    case Object(fields) =>
      if !live.Object? || exists key :: key in fields && key !in live.fields then Null
      else Object(map key | key in fields :: Project(fields[key], live.fields[key]))
    case List(items) =>
      if !live.List? || |live.items| != |items| then Null
      else List(seq(|items|, i requires 0 <= i < |items| => Project(items[i], live.items[i])))
    case _ => live
  }

  /** `expected` embeds in `live`: keys may be added to objects, everything else is equal. */
  predicate Embeds(expected: Value, live: Value) {
    match expected
    case Object(fields) =>
      && live.Object?
      && forall key :: key in fields ==> key in live.fields && Embeds(fields[key], live.fields[key])
    case List(items) =>
      && live.List? && |live.items| == |items|
      && forall i :: 0 <= i < |items| ==> Embeds(items[i], live.items[i])
    case _ => live == expected
  }

  /** Comparing the projection with `expected` decides embedding, although `Null` marks a mismatch and is
      a legal leaf as well. */
  lemma {:induction false} ProjectionIff(expected: Value, live: Value)
    ensures Project(expected, live) == expected <==> Embeds(expected, live)
  {
    match expected
    case Object(fields) =>
      if live.Object? && fields.Keys <= live.fields.Keys {
        forall key | key in fields
          ensures Project(fields[key], live.fields[key]) == fields[key] <==> Embeds(fields[key], live.fields[key])
        {
          ProjectionIff(fields[key], live.fields[key]);
        }
        var projected := map key | key in fields :: Project(fields[key], live.fields[key]);
        assert Project(expected, live) == Object(projected);
        assert projected == fields <==> forall key :: key in fields ==> projected[key] == fields[key];
      }
    case List(items) =>
      if live.List? && |live.items| == |items| {
        forall i | 0 <= i < |items|
          ensures Project(items[i], live.items[i]) == items[i] <==> Embeds(items[i], live.items[i])
        {
          ProjectionIff(items[i], live.items[i]);
        }
        var projected := Project(expected, live).items;
        assert projected == items <==> forall i :: 0 <= i < |items| ==> projected[i] == items[i];
      }
    case _ =>
  }

  lemma {:induction false} EmbedsSelf(v: Value)
    ensures Embeds(v, v)
  {
    match v
    case Object(fields) =>
      forall key | key in fields ensures Embeds(fields[key], fields[key]) {
        EmbedsSelf(fields[key]);
      }
    case List(items) =>
      forall i | 0 <= i < |items| ensures Embeds(items[i], items[i]) {
        EmbedsSelf(items[i]);
      }
    case _ =>
  }
}
