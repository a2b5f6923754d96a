/**
 `KeyedArchive` (src/util.rs): a tree of property-list values is flattened into a table
 of objects that name each other by index (Uid), and expanded back.

 A dictionary is a map; the archiver may meet its keys in any order.  None stands for an
 error or a panic.
 */
module ArchiveExpansion {
  import opened Bytes
  import opened ArchiveClasses

  /** `Plain` is any value without structure: an integer, real, boolean, date or data. */
  datatype Value =
    | Text(text: string)
    | Plain(bits: bytes)
    | Uid(index: nat)
    | Array(items: seq<Value>)
    | Dict(entries: map<string, Value>)

  const NULL := Text("$null")

  predicate IsDictionaryClass(name: string) {
    name == "NSMutableDictionary" || name == "NSDictionary"
  }

  function ClassRecord(c: ClassData): Value {
    var names := map["$classname" := Text(c.name), "$classes" := TextArray(c.classes)];
    Dict(if c.name == "UIColor" then names["$classhints" := TextArray(["NSColor"])] else names)
  }

  function TextArray(names: seq<string>): Value {
    Array(seq(|names|, i requires 0 <= i < |names| => Text(names[i])))
  }

  // ----- expansion -----

  /** The class name a `$class` Uid refers to. */
  function ClassName(objects: seq<Value>, uid: nat): Option<string> {
    if uid < |objects| && objects[uid].Dict? && "$classname" in objects[uid].entries
       && objects[uid].entries["$classname"].Text?
    then Some(objects[uid].entries["$classname"].text)
    else None
  }

  /** `expand_obj`; `depth` bounds how many Uids are followed, as the stack does. */
  function Expand(objects: seq<Value>, v: Value, depth: nat): Option<Value>
    decreases depth, v, 1
  {
    match v
    case Text(_) => Some(v)
    case Plain(_) => Some(v)
    case Uid(u) => if depth == 0 || u >= |objects| then None else Expand(objects, objects[u], depth - 1)
    case Array(items) =>
      if forall i | 0 <= i < |items| :: Expand(objects, items[i], depth).Some?
      then Some(Array(seq(|items|, i requires 0 <= i < |items| => Expand(objects, items[i], depth).value)))
      else None
    case Dict(m) =>
      if forall k | k in m :: ExpandEntry(objects, k, m[k], depth).Some?
      then Reshape(objects, m, map k | k in m :: ExpandEntry(objects, k, m[k], depth).value)
      else None
  }

  /** One dictionary entry; a `$class` Uid becomes the class name. */
  function ExpandEntry(objects: seq<Value>, key: string, item: Value, depth: nat): Option<Value>
    decreases depth, item, 2
  {
    if key == "$class" && item.Uid? then
      var name :- ClassName(objects, item.index);
      Some(Text(name))
    else Expand(objects, item, depth)
  }

  /** An archived NSDictionary turns back into its own entries. */
  function Reshape(objects: seq<Value>, raw: map<string, Value>, expanded: map<string, Value>): Option<Value>
    requires expanded.Keys == raw.Keys
  {
    if "$class" in raw && raw["$class"].Uid? && expanded["$class"].Text?
       && IsDictionaryClass(expanded["$class"].text)
    then
      var entries :- ExpandDict(expanded);
      Some(Dict(entries["$class" := expanded["$class"]]))
    else Some(Dict(expanded))
  }

  /** `expand_dict`: pairs the keys with the objects. */
  function ExpandDict(m: map<string, Value>): Option<map<string, Value>> {
    if "NS.keys" in m && "NS.objects" in m && m["NS.keys"].Array? && m["NS.objects"].Array?
       && |m["NS.keys"].items| <= |m["NS.objects"].items|
       && forall i :: 0 <= i < |m["NS.keys"].items| ==> m["NS.keys"].items[i].Text?
    then Some(Zip(m["NS.keys"].items, m["NS.objects"].items))
    else None
  }

  function Zip(keys: seq<Value>, values: seq<Value>): map<string, Value>
    requires |keys| <= |values|
    requires forall i :: 0 <= i < |keys| ==> keys[i].Text?
  {
    if keys == [] then map[]
    else
      var n := |keys| - 1;
      Zip(keys[..n], values)[keys[n].text := values[n]]
  }

  function ExpandKey(objects: seq<Value>, uid: nat, depth: nat): Option<Value> {
    Expand(objects, Uid(uid), depth)
  }

  // ----- properties of expansion -----

  predicate UidFree(v: Value) {
    match v
    case Uid(_) => false
    case Array(items) => forall i | 0 <= i < |items| :: UidFree(items[i])
    case Dict(m) => forall k | k in m :: UidFree(m[k])
    case _ => true
  }

  /** Every Uid inside `v` is below `n`. */
  predicate UidsBelow(v: Value, n: nat) {
    match v
    case Uid(u) => u < n
    case Array(items) => forall i | 0 <= i < |items| :: UidsBelow(items[i], n)
    case Dict(m) => forall k | k in m :: UidsBelow(m[k], n)
    case _ => true
  }

  lemma {:induction false} UidFreeBelow(v: Value, n: nat)
    requires UidFree(v)
    ensures UidsBelow(v, n)
  {
    match v
    case Array(items) =>
      forall i | 0 <= i < |items|
        ensures UidsBelow(items[i], n)
      {
        UidFreeBelow(items[i], n);
      }
    case Dict(m) =>
      forall k | k in m
        ensures UidsBelow(m[k], n)
      {
        UidFreeBelow(m[k], n);
      }
    case _ =>
  }

  lemma {:induction false} BelowMore(v: Value, n: nat, m: nat)
    requires UidsBelow(v, n) && n <= m
    ensures UidsBelow(v, m)
  {
    match v
    case Array(items) =>
      forall i | 0 <= i < |items|
        ensures UidsBelow(items[i], m)
      {
        BelowMore(items[i], n, m);
      }
    case Dict(e) =>
      forall k | k in e
        ensures UidsBelow(e[k], m)
      {
        BelowMore(e[k], n, m);
      }
    case _ =>
  }

  /** A value without Uids expands to itself. */
  lemma {:induction false} ExpandUidFree(objects: seq<Value>, v: Value, depth: nat)
    requires UidFree(v)
    ensures Expand(objects, v, depth) == Some(v)
    decreases v
  {
    match v
    case Array(items) =>
      forall i | 0 <= i < |items|
        ensures Expand(objects, items[i], depth) == Some(items[i])
      {
        ExpandUidFree(objects, items[i], depth);
      }
      assert seq(|items|, i requires 0 <= i < |items| => Expand(objects, items[i], depth).value) == items;
    case Dict(m) =>
      forall k | k in m
        ensures ExpandEntry(objects, k, m[k], depth) == Some(m[k])
      {
        ExpandUidFree(objects, m[k], depth);
      }
      assert (map k | k in m :: ExpandEntry(objects, k, m[k], depth).value) == m;
    case _ =>
  }

  /** A longer table and more depth expand to the same value. */
  lemma {:induction false} ExpandMore(objects: seq<Value>, more: seq<Value>, v: Value, depth: nat, deeper: nat)
    requires objects <= more && depth <= deeper
    requires Expand(objects, v, depth).Some?
    ensures Expand(more, v, deeper) == Expand(objects, v, depth)
    decreases depth, v, 1
  {
    match v
    case Uid(u) =>
      assert more[u] == objects[u];
      ExpandMore(objects, more, objects[u], depth - 1, deeper - 1);
    case Array(items) =>
      forall i | 0 <= i < |items|
        ensures Expand(more, items[i], deeper) == Expand(objects, items[i], depth)
      {
        ExpandMore(objects, more, items[i], depth, deeper);
      }
      assert seq(|items|, i requires 0 <= i < |items| => Expand(objects, items[i], depth).value)
          == seq(|items|, i requires 0 <= i < |items| => Expand(more, items[i], deeper).value);
    case Dict(m) =>
      forall k | k in m
        ensures ExpandEntry(more, k, m[k], deeper) == ExpandEntry(objects, k, m[k], depth)
      {
        ExpandEntryMore(objects, more, k, m[k], depth, deeper);
      }
      assert (map k | k in m :: ExpandEntry(objects, k, m[k], depth).value)
          == (map k | k in m :: ExpandEntry(more, k, m[k], deeper).value);
    case _ =>
  }

  lemma {:induction false} ExpandEntryMore(
    objects: seq<Value>, more: seq<Value>, key: string, item: Value, depth: nat, deeper: nat)
    requires objects <= more && depth <= deeper
    requires ExpandEntry(objects, key, item, depth).Some?
    ensures ExpandEntry(more, key, item, deeper) == ExpandEntry(objects, key, item, depth)
    decreases depth, item, 2
  {
    if key == "$class" && item.Uid? {
      assert more[item.index] == objects[item.index];
    } else {
      ExpandMore(objects, more, item, depth, deeper);
    }
  }

  lemma {:induction false} ZipUidFree(keys: seq<Value>, values: seq<Value>)
    requires |keys| <= |values|
    requires forall i :: 0 <= i < |keys| ==> keys[i].Text?
    requires forall i :: 0 <= i < |values| ==> UidFree(values[i])
    ensures forall k :: k in Zip(keys, values) ==> UidFree(Zip(keys, values)[k])
    decreases |keys|
  {
    if keys != [] {
      ZipUidFree(keys[..|keys| - 1], values);
    }
  }

  /** Expansion leaves no Uid, so only a Uid-free tree can come back from an archive. */
  lemma {:induction false} ExpandIsUidFree(objects: seq<Value>, v: Value, depth: nat)
    requires Expand(objects, v, depth).Some?
    ensures UidFree(Expand(objects, v, depth).value)
    decreases depth, v
  {
    match v
    case Uid(u) => ExpandIsUidFree(objects, objects[u], depth - 1);
    case Array(items) =>
      forall i | 0 <= i < |items|
        ensures UidFree(Expand(objects, items[i], depth).value)
      {
        ExpandIsUidFree(objects, items[i], depth);
      }
    case Dict(m) =>
      forall k | k in m
        ensures UidFree(ExpandEntry(objects, k, m[k], depth).value)
      {
        if !(k == "$class" && m[k].Uid?) {
          ExpandIsUidFree(objects, m[k], depth);
        }
      }
      var expanded := map k | k in m :: ExpandEntry(objects, k, m[k], depth).value;
      if Expand(objects, v, depth).value != Dict(expanded) {
        ZipUidFree(expanded["NS.keys"].items, expanded["NS.objects"].items);
      }
    case _ =>
  }
}
