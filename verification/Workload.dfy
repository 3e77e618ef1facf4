/** The comparison of a live Deployment or Job with the reviewed one: the server's known defaults and the
    controllers' own fields are removed from the live spec before it has to equal the reviewed spec. */
module Workload {
  import opened Json

  type Defaults = seq<(string, Value)>
  type Rule = (Value, Value) -> bool
  type Rules = map<string, Rule>

  // ----- What the comparison means

  predicate HasDefault(defaults: Defaults, key: string, v: Value) {
    (key, v) in defaults
  }

  /** `live` agrees with `expected`: it has all its keys with agreeing values, and besides them only keys
      that hold the server's default. A key without a rule of its own agrees if it is equal. */
  ghost predicate Agrees(defaults: Defaults, rules: Rules, expected: Map, live: Map) {
    && expected.Keys <= live.Keys
    && (forall key :: key in expected ==>
          if key in rules then rules[key](expected[key], live[key]) else live[key] == expected[key])
    && (forall key :: key in live && key !in expected ==> HasDefault(defaults, key, live[key]))
  }

  /** Objects agree by `rel`, other values if they are equal. */
  ghost function ByObject(rel: (Map, Map) -> bool): Rule {
    (e: Value, l: Value) => if e.Object? && l.Object? then rel(e.fields, l.fields) else l == e
  }

  /** Lists of equal length agree item by item: objects by `rel`, other items if they are equal. */
  ghost function ByList(rel: (Map, Map) -> bool): Rule {
    (e: Value, l: Value) =>
      if e.List? && l.List? && |e.items| == |l.items| then
        forall i :: 0 <= i < |e.items| ==> ByObject(rel)(e.items[i], l.items[i])
      else l == e
  }

  // ----- The building blocks of the normalization

  /** `_drop_known_live_default` */
  function DropDefault(live: Map, expected: Map, key: string, default: Value): Map {
    if key !in expected && Get(live, key) == default then live - {key} else live
  }

  function DropDefaults(live: Map, expected: Map, defaults: Defaults): Map {
    if |defaults| == 0 then live
    else DropDefaults(DropDefault(live, expected, defaults[0].0, defaults[0].1), expected, defaults[1..])
  }

  /** Normalizes the object under `key`, if both sides have one there. */
  function InObject(expected: Map, live: Map, key: string, normalizer: (Map, Map) -> Map): Map {
    var e, l := Get(expected, key), Get(live, key);
    if e.Object? && l.Object? then live[key := Object(normalizer(e.fields, l.fields))] else live
  }

  function NormalizeItem(e: Value, l: Value, normalizer: (Map, Map) -> Map): Value {
    if e.Object? && l.Object? then Object(normalizer(e.fields, l.fields)) else l
  }

  /** `_normalize_parallel_mapping_lists` */
  function InList(expected: Map, live: Map, key: string, normalizer: (Map, Map) -> Map): Map {
    var e, l := Get(expected, key), Get(live, key);
    if e.List? && l.List? && |e.items| == |l.items| then
      live[key := List(seq(|l.items|, i requires 0 <= i < |l.items| => NormalizeItem(e.items[i], l.items[i], normalizer)))]
    else live
  }

  /** `result` is `live` after the removal of `defaults` and a normalization of the keys in `rules` that
      leaves a value equal to the expected one exactly when the rule accepts it. */
  ghost predicate Realizes(result: Map, expected: Map, live: Map, defaults: Defaults, rules: Rules) {
    && (forall key :: key in result <==>
          key in live && (key in expected || !HasDefault(defaults, key, live[key])))
    && (forall key :: key in result && key !in rules ==> result[key] == live[key])
    && (forall key :: key in result && key in rules && key in expected ==>
          (result[key] == expected[key] <==> rules[key](expected[key], live[key])))
  }

  lemma RealizesIff(result: Map, expected: Map, live: Map, defaults: Defaults, rules: Rules)
    requires Realizes(result, expected, live, defaults, rules)
    ensures result == expected <==> Agrees(defaults, rules, expected, live)
  {
  }

  lemma {:induction false} DropsRealize(start: Map, expected: Map, live: Map, done: Defaults, defaults: Defaults)
    requires Realizes(start, expected, live, done, map[])
    ensures Realizes(DropDefaults(start, expected, defaults), expected, live, done + defaults, map[])
    decreases |defaults|
  {
    if |defaults| == 0 {
      assert done + defaults == done;
    } else {
      var (key, default) := defaults[0];
      var next := DropDefault(start, expected, key, default);
      assert forall k, v :: HasDefault(done + [defaults[0]], k, v) <==> HasDefault(done, k, v) || (k, v) == (key, default);
      assert Realizes(next, expected, live, done + [defaults[0]], map[]);
      DropsRealize(next, expected, live, done + [defaults[0]], defaults[1..]);
      assert done + [defaults[0]] + defaults[1..] == done + defaults;
    }
  }

  lemma ObjectRealizes(start: Map, expected: Map, live: Map, defaults: Defaults, rules: Rules, key: string,
                       normalizer: (Map, Map) -> Map, rel: (Map, Map) -> bool)
    requires Realizes(start, expected, live, defaults, rules) && key !in rules
    requires forall e, l :: normalizer(e, l) == e <==> rel(e, l)
    ensures Realizes(InObject(expected, start, key, normalizer), expected, live, defaults, rules[key := ByObject(rel)])
  {
  }

  lemma ItemsRealize(e: seq<Value>, l: seq<Value>, normalizer: (Map, Map) -> Map, rel: (Map, Map) -> bool)
    requires |e| == |l| && forall e, l :: normalizer(e, l) == e <==> rel(e, l)
    ensures seq(|l|, i requires 0 <= i < |l| => NormalizeItem(e[i], l[i], normalizer)) == e
       <==> forall i :: 0 <= i < |e| ==> ByObject(rel)(e[i], l[i])
  {
  }

  /** Replacing the value under `key` adds a rule that decides when the new value is the expected one. */
  lemma ValueRealizes(start: Map, expected: Map, live: Map, defaults: Defaults, rules: Rules, key: string,
                      v: Value, rule: Rule)
    requires Realizes(start, expected, live, defaults, rules) && key !in rules
    requires key in start && key in expected && (v == expected[key] <==> rule(expected[key], start[key]))
    ensures Realizes(start[key := v], expected, live, defaults, rules[key := rule])
  {
  }

  lemma ListRealizes(start: Map, expected: Map, live: Map, defaults: Defaults, rules: Rules, key: string,
                     normalizer: (Map, Map) -> Map, rel: (Map, Map) -> bool)
    requires Realizes(start, expected, live, defaults, rules) && key !in rules
    requires forall e, l :: normalizer(e, l) == e <==> rel(e, l)
    ensures Realizes(InList(expected, start, key, normalizer), expected, live, defaults, rules[key := ByList(rel)])
  {
    hide Realizes, ByObject, NormalizeItem, ByList;
    var e, l := Get(expected, key), Get(start, key);
    ByListIs(e, l, rel);
    if e.List? && l.List? && |e.items| == |l.items| {
      ItemsRealize(e.items, l.items, normalizer, rel);
      var items := seq(|l.items|, i requires 0 <= i < |l.items| => NormalizeItem(e.items[i], l.items[i], normalizer));
      ValueRealizes(start, expected, live, defaults, rules, key, List(items), ByList(rel));
      assert InList(expected, start, key, normalizer) == start[key := List(items)];
    } else {
      assert InList(expected, start, key, normalizer) == start;
      OtherRealizes(start, expected, live, defaults, rules, key, ByList(rel));
    }
  }

  lemma OtherRealizes(start: Map, expected: Map, live: Map, defaults: Defaults, rules: Rules, key: string, rule: Rule)
    requires Realizes(start, expected, live, defaults, rules) && key !in rules
    requires key in start && key in expected ==> (start[key] == expected[key] <==> rule(expected[key], start[key]))
    ensures Realizes(start, expected, live, defaults, rules[key := rule])
  {
  }

  lemma ByListIs(e: Value, l: Value, rel: (Map, Map) -> bool)
    ensures ByList(rel)(e, l) <==>
              if e.List? && l.List? && |e.items| == |l.items| then
                forall i :: 0 <= i < |e.items| ==> ByObject(rel)(e.items[i], l.items[i])
              else l == e
  {
    hide ByObject;
  }

  lemma DropsAgree(expected: Map, live: Map, defaults: Defaults)
    ensures Realizes(DropDefaults(live, expected, defaults), expected, live, defaults, map[])
  {
    DropsRealize(live, expected, live, [], defaults);
    assert [] + defaults == defaults;
  }

  /** Removing defaults only gives the expected object exactly when the two agree. */
  lemma DropsIff(defaults: Defaults)
    ensures forall e, l :: DropDefaults(l, e, defaults) == e <==> Agrees(defaults, map[], e, l)
  {
    forall e, l ensures DropDefaults(l, e, defaults) == e <==> Agrees(defaults, map[], e, l) {
      DropsAgree(e, l, defaults);
      RealizesIff(DropDefaults(l, e, defaults), e, l, defaults, map[]);
    }
  }

  // ----- Growth

  type Growth = (Value, Value, Value) -> bool
  type Growths = map<string, Growth>

  /** `grown` is `live` with defaults added at keys that it does not have, and with grown values at reviewed
      keys that have a growth of their own. */
  ghost predicate Grown(defaults: Defaults, growths: Growths, expected: Map, live: Map, grown: Map) {
    && live.Keys <= grown.Keys
    && (forall key :: key in grown && key !in live ==> HasDefault(defaults, key, grown[key]))
    && (forall key :: key in live ==>
          if key in growths && key in expected then growths[key](expected[key], live[key], grown[key])
          else grown[key] == live[key])
  }

  ghost function GrowObject(grow: (Map, Map, Map) -> bool): Growth {
    (e: Value, l: Value, g: Value) =>
      if e.Object? && l.Object? && g.Object? then grow(e.fields, l.fields, g.fields) else g == l
  }

  ghost function GrowList(grow: (Map, Map, Map) -> bool): Growth {
    (e: Value, l: Value, g: Value) =>
      if e.List? && l.List? && g.List? && |e.items| == |l.items| == |g.items| then
        forall i :: 0 <= i < |e.items| ==> GrowObject(grow)(e.items[i], l.items[i], g.items[i])
      else g == l
  }

  /** An agreement that an object has with itself, that growth keeps, and that implies embedding. */
  ghost predicate Lawful(rel: (Map, Map) -> bool, grow: (Map, Map, Map) -> bool) {
    && (forall e :: rel(e, e))
    && (forall e, l, g :: rel(e, l) && grow(e, l, g) ==> rel(e, g))
    && (forall e, l :: rel(e, l) ==> Embeds(Object(e), Object(l)))
  }

  ghost predicate LawfulRule(rule: Rule, growth: Growth) {
    && (forall e :: rule(e, e))
    && (forall e, l, g :: rule(e, l) && growth(e, l, g) ==> rule(e, g))
    && (forall e, l :: rule(e, l) ==> Embeds(e, l))
  }

  lemma ObjectLawful(rel: (Map, Map) -> bool, grow: (Map, Map, Map) -> bool)
    requires Lawful(rel, grow)
    ensures LawfulRule(ByObject(rel), GrowObject(grow))
  {
    hide Embeds;
    forall e, l | ByObject(rel)(e, l) ensures Embeds(e, l) {
      EmbedsSelf(e);
      assert e.Object? && l.Object? ==> e == Object(e.fields) && l == Object(l.fields);
    }
  }

  lemma ListLawful(rel: (Map, Map) -> bool, grow: (Map, Map, Map) -> bool)
    requires Lawful(rel, grow)
    ensures LawfulRule(ByList(rel), GrowList(grow))
  {
    ObjectLawful(rel, grow);
    hide ByObject, GrowObject, ByList, GrowList, Embeds;
    forall e ensures ByList(rel)(e, e) {
      ByListIs(e, e, rel);
    }
    forall e, l | ByList(rel)(e, l) ensures Embeds(e, l) {
      ListEmbeds(e, l, rel, GrowObject(grow));
    }
    forall e, l, g | ByList(rel)(e, l) && GrowList(grow)(e, l, g) ensures ByList(rel)(e, g) {
      ListGrows(e, l, g, rel, grow);
    }
  }

  lemma ListEmbeds(e: Value, l: Value, rel: (Map, Map) -> bool, growth: Growth)
    requires LawfulRule(ByObject(rel), growth) && ByList(rel)(e, l)
    ensures Embeds(e, l)
  {
    hide ByObject, ByList;
    ByListIs(e, l, rel);
    EmbedsSelf(e);
  }

  lemma ListGrows(e: Value, l: Value, g: Value, rel: (Map, Map) -> bool, grow: (Map, Map, Map) -> bool)
    requires LawfulRule(ByObject(rel), GrowObject(grow)) && ByList(rel)(e, l) && GrowList(grow)(e, l, g)
    ensures ByList(rel)(e, g)
  {
    hide ByObject, ByList, GrowObject, Embeds;
    ByListIs(e, l, rel);
    ByListIs(e, g, rel);
    if e.List? && l.List? && g.List? && |e.items| == |l.items| == |g.items| {
      forall i | 0 <= i < |e.items| ensures ByObject(rel)(e.items[i], g.items[i]) {
        assert ByObject(rel)(e.items[i], l.items[i]) && GrowObject(grow)(e.items[i], l.items[i], g.items[i]);
      }
    }
  }

  lemma LevelLawfulAt(defaults: Defaults, rules: Rules, growths: Growths, e: Map, l: Map, g: Map)
    requires rules.Keys == growths.Keys && forall key :: key in rules ==> LawfulRule(rules[key], growths[key])
    ensures Agrees(defaults, rules, e, e)
    ensures Agrees(defaults, rules, e, l) && Grown(defaults, growths, e, l, g) ==> Agrees(defaults, rules, e, g)
    ensures Agrees(defaults, rules, e, l) ==> Embeds(Object(e), Object(l))
  {
    if Agrees(defaults, rules, e, l) {
      forall key | key in e ensures key in l && Embeds(e[key], l[key]) {
        EmbedsSelf(e[key]);
        assert key in rules ==> LawfulRule(rules[key], growths[key]);
      }
    }
  }

  /** A level whose rules are lawful is lawful. */
  lemma LevelLawful(defaults: Map -> Defaults, rules: Rules, growths: Growths,
                    rel: (Map, Map) -> bool, grow: (Map, Map, Map) -> bool)
    requires rules.Keys == growths.Keys && forall key :: key in rules ==> LawfulRule(rules[key], growths[key])
    requires forall e, l :: rel(e, l) <==> Agrees(defaults(e), rules, e, l)
    requires forall e, l, g :: grow(e, l, g) <==> Grown(defaults(e), growths, e, l, g)
    ensures Lawful(rel, grow)
  {
    hide Agrees, Grown, Embeds, LawfulRule;
    forall e ensures rel(e, e) {
      LevelLawfulAt(defaults(e), rules, growths, e, e, e);
    }
    forall e, l | rel(e, l) ensures Embeds(Object(e), Object(l)) {
      LevelLawfulAt(defaults(e), rules, growths, e, l, l);
    }
    forall e, l, g | rel(e, l) && grow(e, l, g) ensures rel(e, g) {
      LevelLawfulAt(defaults(e), rules, growths, e, l, g);
    }
  }

  lemma FlatLawful(defaults: Defaults, rel: (Map, Map) -> bool, grow: (Map, Map, Map) -> bool)
    requires forall e, l :: rel(e, l) <==> Agrees(defaults, map[], e, l)
    requires forall e, l, g :: grow(e, l, g) <==> Grown(defaults, map[], e, l, g)
    ensures Lawful(rel, grow)
  {
    LevelLawful((e: Map) => defaults, map[], map[], rel, grow);
  }
}
