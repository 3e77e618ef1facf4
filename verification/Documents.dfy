/** Reading the manifest and the baseline: `dict.get` with a default, and the shapes the gates look for. */
module Documents {
  import opened CallArguments
  import opened Json
  import opened Ordering

  /** A file as `read_yaml` leaves it. */
  datatype Document = Missing | Unreadable | Parsed(fields: Map)

  /** `m.get(key, fallback)`: a key that is there with `Null` answers `Null`. */
  function GetOr(m: Map, key: string, fallback: Value): Value {
    if key in m then m[key] else fallback
  }

  /** The value's fields; none unless it is a mapping. */
  function Fields(v: Value): Map {
    if v.Object? then v.fields else map[]
  }

  /** The value's items; none unless it is a list. */
  function Items(v: Value): seq<Value> {
    if v.List? then v.items else []
  }

  /** `_string_set` */
  function Strings(v: Value): set<string> {
    set item | item in Items(v) && item.Text? :: item.s
  }

  /** The text of every item of a list of strings. */
  function Texts(items: seq<Value>): (r: seq<string>)
    requires forall i :: 0 <= i < |items| ==> items[i].Text?
    ensures |r| == |items| && forall i :: 0 <= i < |r| ==> r[i] == items[i].s
  {
    seq(|items|, i requires 0 <= i < |items| => items[i].s)
  }

  predicate AllTexts(v: Value) {
    v.List? && forall i :: 0 <= i < |v.items| ==> v.items[i].Text?
  }

  /** A list of strings that equals `sorted(set(...))` of itself. */
  predicate SortedUnique(v: Value) {
    AllTexts(v) && Texts(v.items) == SortedSet(NameLeq, Texts(v.items))
  }

  predicate HexDigit(c: char) {
    '0' <= c <= '9' || 'a' <= c <= 'f'
  }

  /** Lowercase hexadecimal text of the given length. */
  predicate Hex(v: Value, length: nat) {
    v.Text? && |v.s| == length && forall i :: 0 <= i < |v.s| ==> HexDigit(v.s[i])
  }

  /** A string with something other than whitespace in it. */
  predicate Filled(v: Value) {
    v.Text? && Strip(v.s) != ""
  }
}
