/**
 `KeyedArchive::archive` (src/util.rs) as it runs: objects are appended to the table as
 the tree is walked.  Whatever a value expands to before it is archived, the Uid that
 archiving returns expands to the same.
 */
module Archiver {
  import opened Bytes
  import opened ArchiveClasses
  import opened ArchiveExpansion

  // ----- what can be archived -----

  /** A value `archive_obj` accepts: every dictionary it reaches has a class it knows. */
  predicate Archivable(specs: seq<ClassData>, v: Value)
    decreases v, 0
  {
    match v
    case Array(items) => forall i | 0 <= i < |items| :: Archivable(specs, items[i])
    case Dict(m) =>
      && "$class" in m && m["$class"].Text?
      && FindSpec(specs, m["$class"].text).Some?
      && (if IsDictionaryClass(m["$class"].text)
          then forall k | k in m && k != "$class" :: ArchivableKey(specs, m[k])
          else forall k | k in m && k in FindSpec(specs, m["$class"].text).value.uidFields :: ArchivableField(specs, m[k]))
    case _ => true
  }

  predicate ArchivableKey(specs: seq<ClassData>, v: Value)
    decreases v, 1
  {
    v == NULL || Archivable(specs, v)
  }

  /** A field kept by reference; an array is kept as an array of references. */
  predicate ArchivableField(specs: seq<ClassData>, v: Value)
    decreases v, 2
  {
    if v.Array? then forall i | 0 <= i < |v.items| :: ArchivableKey(specs, v.items[i]) else ArchivableKey(specs, v)
  }

  // ----- what an archived value stands for -----

  /** In this table, `v` refers only to existing objects and expands to `x`. */
  ghost predicate Yields(objects: seq<Value>, v: Value, x: Value) {
    UidsBelow(v, |objects|) && Expand(objects, v, |objects|) == Some(x)
  }

  ghost predicate AllYield(objects: seq<Value>, vs: seq<Value>, xs: seq<Value>) {
    |vs| == |xs| && forall i :: 0 <= i < |vs| ==> Yields(objects, vs[i], xs[i])
  }

  lemma YieldsMore(objects: seq<Value>, more: seq<Value>, v: Value, x: Value)
    requires Yields(objects, v, x) && objects <= more
    ensures Yields(more, v, x)
  {
    BelowMore(v, |objects|, |more|);
    ExpandMore(objects, more, v, |objects|, |more|);
  }

  lemma AllYieldMore(objects: seq<Value>, more: seq<Value>, vs: seq<Value>, xs: seq<Value>)
    requires AllYield(objects, vs, xs) && objects <= more
    ensures AllYield(more, vs, xs)
  {
    forall i | 0 <= i < |vs|
      ensures Yields(more, vs[i], xs[i])
    {
      YieldsMore(objects, more, vs[i], xs[i]);
    }
  }

  lemma ArrayYields(objects: seq<Value>, vs: seq<Value>, xs: seq<Value>)
    requires AllYield(objects, vs, xs)
    ensures Yields(objects, Array(vs), Array(xs))
  {
    assert forall i | 0 <= i < |vs| :: Yields(objects, vs[i], xs[i]);
    assert seq(|vs|, i requires 0 <= i < |vs| => Expand(objects, vs[i], |objects|).value) == xs;
  }

  lemma ArrayMembers(objects: seq<Value>, items: seq<Value>, x: Value)
    requires Yields(objects, Array(items), x)
    ensures x.Array? && AllYield(objects, items, x.items)
  {
    assert forall i | 0 <= i < |items| :: Expand(objects, items[i], |objects|).Some?;
  }

  /** Pushing a value makes its new Uid stand for what the value stands for. */
  lemma PushYields(objects: seq<Value>, v: Value, x: Value)
    requires Yields(objects, v, x)
    ensures Yields(objects + [v], Uid(|objects|), x)
  {
    var more := objects + [v];
    ExpandMore(objects, more, v, |objects|, |objects|);
    assert more[|objects|] == v;
  }

  /** The table's invariant: references point backwards, and the class records are in place. */
  ghost predicate TableValid(specs: seq<ClassData>, objects: seq<Value>, classUids: map<string, nat>) {
    && |objects| >= 1 && objects[0] == NULL
    && (forall i :: 0 <= i < |objects| ==> UidsBelow(objects[i], i))
    && ClassesInPlace(specs, objects, classUids)
  }

  ghost predicate IsClassUid(specs: seq<ClassData>, objects: seq<Value>, uid: nat, name: string) {
    uid < |objects| && FindSpec(specs, name).Some? && objects[uid] == ClassRecord(FindSpec(specs, name).value)
  }

  /** A dictionary that names no class, as the class records are. */
  predicate NamesNoClass(v: Value) {
    v.Dict? && "$class" !in v.entries
  }

  /** Whatever names no class is the record of a class that has been recorded. */
  ghost predicate RecordsKnown(objects: seq<Value>, classUids: map<string, nat>) {
    forall i :: 0 <= i < |objects| && NamesNoClass(objects[i]) ==> exists name :: name in classUids && classUids[name] == i
  }

  /** No class has two records. */
  ghost predicate OneRecordEach(objects: seq<Value>) {
    forall i, j :: 0 <= i < j < |objects| && NamesNoClass(objects[i]) && NamesNoClass(objects[j]) ==> objects[i] != objects[j]
  }

  ghost predicate ClassesInPlace(specs: seq<ClassData>, objects: seq<Value>, classUids: map<string, nat>) {
    forall name :: name in classUids ==> IsClassUid(specs, objects, classUids[name], name)
  }

  lemma ClassRecordName(c: ClassData)
    ensures ClassRecord(c).Dict? && "$classname" in ClassRecord(c).entries && ClassRecord(c).entries["$classname"] == Text(c.name)
  {
  }

  lemma RecordName(specs: seq<ClassData>, objects: seq<Value>, classUids: map<string, nat>, i: nat) returns (name: string)
    requires ClassesInPlace(specs, objects, classUids) && RecordsKnown(objects, classUids)
    requires i < |objects| && NamesNoClass(objects[i])
    ensures name in classUids && classUids[name] == i
    ensures "$classname" in objects[i].entries && objects[i].entries["$classname"] == Text(name)
  {
    name :| name in classUids && classUids[name] == i;
    assert IsClassUid(specs, objects, classUids[name], name);
    ClassRecordName(FindSpec(specs, name).value);
  }

  lemma RecordsOnce(specs: seq<ClassData>, objects: seq<Value>, classUids: map<string, nat>)
    requires ClassesInPlace(specs, objects, classUids) && RecordsKnown(objects, classUids)
    ensures OneRecordEach(objects)
  {
    forall i, j | 0 <= i < j < |objects| && NamesNoClass(objects[i]) && NamesNoClass(objects[j])
      ensures objects[i] != objects[j]
    {
      var a := RecordName(specs, objects, classUids, i);
      var b := RecordName(specs, objects, classUids, j);
    }
  }

  lemma ClassRecordUidFree(c: ClassData)
    ensures UidFree(ClassRecord(c))
  {
  }

  lemma NextRecord(objects: seq<Value>, classUids: map<string, nat>, name: string, record: Value)
    requires RecordsKnown(objects, classUids) && name !in classUids
    ensures RecordsKnown(objects + [record], classUids[name := |objects|])
  {
    var more, known := objects + [record], classUids[name := |objects|];
    forall i | 0 <= i < |more| && NamesNoClass(more[i])
      ensures exists n :: n in known && known[n] == i
    {
      if i < |objects| {
        var n :| n in classUids && classUids[n] == i;
        assert known[n] == i;
      } else {
        assert known[name] == i;
      }
    }
  }

  lemma NextInTable(specs: seq<ClassData>, objects: seq<Value>, classUids: map<string, nat>, item: Value)
    requires TableValid(specs, objects, classUids) && UidsBelow(item, |objects|)
    ensures TableValid(specs, objects + [item], classUids)
  {
  }

  lemma NextObject(objects: seq<Value>, classUids: map<string, nat>, item: Value)
    requires RecordsKnown(objects, classUids) && !NamesNoClass(item)
    ensures RecordsKnown(objects + [item], classUids)
  {
  }

  lemma ClassUidName(specs: seq<ClassData>, objects: seq<Value>, uid: nat, name: string)
    requires IsClassUid(specs, objects, uid, name)
    ensures ClassName(objects, uid) == Some(name)
  {
  }

  // ----- archived dictionaries -----

  /** The pairs read so far: every key once, each with the value it stands for. */
  ghost predicate Pairs(keys: seq<string>, xs: seq<Value>, entries: map<string, Value>) {
    && |keys| == |xs|
    && (forall i, j :: 0 <= i < j < |keys| ==> keys[i] != keys[j])
    && (forall i :: 0 <= i < |keys| ==> keys[i] in entries && xs[i] == entries[keys[i]])
  }

  function Texts(keys: seq<string>): (r: seq<Value>)
    ensures |r| == |keys| && forall i :: 0 <= i < |keys| ==> r[i] == Text(keys[i])
  {
    seq(|keys|, i requires 0 <= i < |keys| => Text(keys[i]))
  }

  lemma ZipLast(keys: seq<string>, xs: seq<Value>, n: nat)
    requires 0 < n <= |keys| && |keys| == |xs|
    ensures Zip(Texts(keys)[..n], xs) == Zip(Texts(keys)[..n - 1], xs)[keys[n - 1] := xs[n - 1]]
  {
    var t := Texts(keys)[..n];
    assert t[..n - 1] == Texts(keys)[..n - 1] && t[n - 1] == Text(keys[n - 1]);
  }

  lemma {:induction false} ZipPairs(keys: seq<string>, xs: seq<Value>, n: nat, entries: map<string, Value>)
    requires n <= |keys| && Pairs(keys, xs, entries)
    ensures var z := Zip(Texts(keys)[..n], xs);
      && (forall k :: k in z <==> k in keys[..n])
      && (forall k :: k in z ==> k in entries && z[k] == entries[k])
  {
    if n > 0 {
      ZipPairs(keys, xs, n - 1, entries);
      ZipLast(keys, xs, n);
      assert keys[..n] == keys[..n - 1] + [keys[n - 1]];
    }
  }

  lemma DictionaryYields(objects: seq<Value>, classUid: nat, name: string, keys: seq<string>,
                         keyUids: seq<Value>, objectUids: seq<Value>, xs: seq<Value>, entries: map<string, Value>)
    requires ClassName(objects, classUid) == Some(name) && IsDictionaryClass(name)
    requires AllYield(objects, keyUids, Texts(keys)) && AllYield(objects, objectUids, xs)
    requires Pairs(keys, xs, entries)
    requires "$class" in entries && entries["$class"] == Text(name)
    requires forall k :: k in entries <==> k in keys || k == "$class"
    ensures Yields(objects, ArchivedDictionary(keyUids, objectUids, classUid), Dict(entries))
  {
    ArrayYields(objects, keyUids, Texts(keys));
    ArrayYields(objects, objectUids, xs);
    ExpandArchived(objects, classUid, name, keyUids, objectUids, Texts(keys), xs, |objects|);
    ZipEntries(keys, xs, entries, Text(name));
    ArchivedBelow(keyUids, objectUids, classUid, |objects|);
  }

  lemma ZipEntries(keys: seq<string>, xs: seq<Value>, entries: map<string, Value>, className: Value)
    requires Pairs(keys, xs, entries)
    requires "$class" in entries && entries["$class"] == className
    requires forall k :: k in entries <==> k in keys || k == "$class"
    ensures Zip(Texts(keys), xs)["$class" := className] == entries
  {
    ZipAll(keys, xs, entries);
    var z := Zip(Texts(keys), xs)["$class" := className];
    assert z.Keys == entries.Keys;
    forall k | k in z
      ensures z[k] == entries[k]
    {
    }
  }

  lemma ZipAll(keys: seq<string>, xs: seq<Value>, entries: map<string, Value>)
    requires Pairs(keys, xs, entries)
    ensures var z := Zip(Texts(keys), xs);
      && (forall k :: k in z <==> k in keys)
      && (forall k :: k in z ==> k in entries && z[k] == entries[k])
  {
    ZipPairs(keys, xs, |keys|, entries);
    assert Texts(keys)[..|keys|] == Texts(keys) && keys[..|keys|] == keys;
  }

  lemma ArchivedBelow(keyUids: seq<Value>, objectUids: seq<Value>, classUid: nat, n: nat)
    requires UidsBelow(Array(keyUids), n) && UidsBelow(Array(objectUids), n) && classUid < n
    ensures UidsBelow(ArchivedDictionary(keyUids, objectUids, classUid), n)
  {
  }

  function ArchivedDictionary(keyUids: seq<Value>, objectUids: seq<Value>, classUid: nat): Value {
    Dict(map["NS.keys" := Array(keyUids), "NS.objects" := Array(objectUids), "$class" := Uid(classUid)])
  }

  lemma ExpandArchived(objects: seq<Value>, classUid: nat, name: string, keyUids: seq<Value>, objectUids: seq<Value>,
                       keys: seq<Value>, xs: seq<Value>, depth: nat)
    requires ClassName(objects, classUid) == Some(name) && IsDictionaryClass(name)
    requires Expand(objects, Array(keyUids), depth) == Some(Array(keys))
    requires Expand(objects, Array(objectUids), depth) == Some(Array(xs))
    requires |keys| <= |xs| && forall i :: 0 <= i < |keys| ==> keys[i].Text?
    ensures Expand(objects, ArchivedDictionary(keyUids, objectUids, classUid), depth)
         == Some(Dict(Zip(keys, xs)["$class" := Text(name)]))
  {
    var m := ArchivedDictionary(keyUids, objectUids, classUid).entries;
    assert "NS.keys" != "$class" && "NS.objects" != "$class" && "NS.keys" != "NS.objects";
    assert ExpandEntry(objects, "NS.keys", m["NS.keys"], depth) == Some(Array(keys));
    assert ExpandEntry(objects, "NS.objects", m["NS.objects"], depth) == Some(Array(xs));
    assert ExpandEntry(objects, "$class", m["$class"], depth) == Some(Text(name));
    var expanded := map k | k in m :: ExpandEntry(objects, k, m[k], depth).value;
    assert expanded["NS.keys"] == Array(keys) && expanded["NS.objects"] == Array(xs) && expanded["$class"] == Text(name);
    assert ExpandDict(expanded) == Some(Zip(keys, xs));
  }

  // ----- archived fields -----

  /** The entries of a record being archived: each stands for its own value, and `$class` for its name. */
  ghost predicate EntriesYield(objects: seq<Value>, entries: map<string, Value>, xs: map<string, Value>) {
    && entries.Keys == xs.Keys
    && forall k :: k in entries && k != "$class" ==> Yields(objects, entries[k], xs[k])
  }

  lemma EntriesYieldMore(objects: seq<Value>, more: seq<Value>, entries: map<string, Value>, xs: map<string, Value>)
    requires EntriesYield(objects, entries, xs) && objects <= more
    ensures EntriesYield(more, entries, xs)
  {
    forall k | k in entries && k != "$class"
      ensures Yields(more, entries[k], xs[k])
    {
      YieldsMore(objects, more, entries[k], xs[k]);
    }
  }

  /** A record whose class is not a dictionary class. */
  lemma RecordYields(objects: seq<Value>, classUid: nat, name: string, entries: map<string, Value>, xs: map<string, Value>)
    requires ClassName(objects, classUid) == Some(name) && !IsDictionaryClass(name)
    requires EntriesYield(objects, entries, xs)
    requires "$class" in entries && entries["$class"] == Uid(classUid) && xs["$class"] == Text(name)
    ensures Yields(objects, Dict(entries), Dict(xs))
  {
    forall k | k in entries
      ensures ExpandEntry(objects, k, entries[k], |objects|) == Some(xs[k])
      ensures UidsBelow(entries[k], |objects|)
    {
      if k != "$class" {
        assert Yields(objects, entries[k], xs[k]);
      }
    }
    assert (map k | k in entries :: ExpandEntry(objects, k, entries[k], |objects|).value) == xs;
  }

  /** What a dictionary that can be archived expands to, entry by entry. */
  lemma DictMembers(objects: seq<Value>, m: map<string, Value>, x: Value)
    requires Yields(objects, Dict(m), x)
    requires "$class" in m && m["$class"].Text?
    ensures x.Dict? && EntriesYield(objects, m, x.entries) && x.entries["$class"] == m["$class"]
  {
    assert forall k | k in m :: ExpandEntry(objects, k, m[k], |objects|).Some?;
    var expanded := map k | k in m :: ExpandEntry(objects, k, m[k], |objects|).value;
    assert x == Dict(expanded);
    assert ExpandEntry(objects, "$class", m["$class"], |objects|) == Some(m["$class"]);
  }

  class KeyedArchive {
    var objects: seq<Value>
    var classUids: map<string, nat>
    const specs: seq<ClassData>

    constructor (specs: seq<ClassData>)
      requires AllDistinct(specs)
      ensures Valid() && objects == [NULL] && this.specs == specs
    {
      objects, classUids, this.specs := [NULL], map[], specs;
    }

    ghost predicate Valid()
      reads this
    {
      TableValid(specs, objects, classUids) && RecordsKnown(objects, classUids) && AllDistinct(specs)
    }

    method Push(item: Value) returns (uid: nat)
      requires Valid() && UidsBelow(item, |objects|) && !NamesNoClass(item)
      modifies this
      ensures Valid() && objects == old(objects) + [item] && uid == |old(objects)|
      ensures classUids == old(classUids)
    {
      NextObject(objects, classUids, item);
      NextInTable(specs, objects, classUids, item);
      uid := |objects|;
      objects := objects + [item];
    }

    /** The record of a class is pushed when the class is asked for first, and found from then on. */
    method GetClassKey(name: string) returns (uid: Option<nat>)
      requires Valid()
      modifies this
      ensures uid.Some? <==> FindSpec(specs, name).Some? || name in old(classUids)
      ensures uid.Some? ==> Valid() && old(objects) <= objects && IsClassUid(specs, objects, uid.value, name)
      ensures name in old(classUids) || uid.None? ==> objects == old(objects) && classUids == old(classUids)
      ensures name in old(classUids) ==> uid == Some(old(classUids)[name])
      ensures name !in old(classUids) && uid.Some? ==>
        && uid == Some(|old(objects)|) && classUids == old(classUids)[name := uid.value]
        && objects == old(objects) + [ClassRecord(FindSpec(specs, name).value)]
    {
      if name in classUids {
        return Some(classUids[name]);
      }
      var spec := FindSpec(specs, name);
      if spec.None? {
        return None;
      }
      ClassRecordUidFree(spec.value);
      UidFreeBelow(ClassRecord(spec.value), |objects|);
      var key := |objects|;
      NextRecord(objects, classUids, name, ClassRecord(spec.value));
      NextInTable(specs, objects, classUids, ClassRecord(spec.value));
      objects := objects + [ClassRecord(spec.value)];
      classUids := classUids[name := key];
      uid := Some(key);
    }

    /** Archives one value and pushes it; the Uid stands for what the value stands for. */
    method ArchiveKey(item: Value, ghost x: Value) returns (uid: Option<nat>)
      requires Valid() && Yields(objects, item, x)
      modifies this
      ensures uid.Some? <==> ArchivableKey(specs, item)
      ensures uid.Some? ==> Valid() && old(objects) <= objects && Yields(objects, Uid(uid.value), x)
      decreases item, 4
    {
      if item == NULL {
        return Some(0);
      }
      var v := ArchiveObj(item, x);
      if v.None? {
        return None;
      }
      PushYields(objects, v.value, x);
      var key := Push(v.value);
      uid := Some(key);
    }

    /** Rewrites a value so that what it keeps by reference is in the table. */
    method ArchiveObj(item: Value, ghost x: Value) returns (v: Option<Value>)
      requires Valid() && Yields(objects, item, x)
      modifies this
      ensures v.Some? <==> Archivable(specs, item)
      ensures v.Some? ==> Valid() && old(objects) <= objects && Yields(objects, v.value, x) && !NamesNoClass(v.value)
      decreases item, 3
    {
      match item
      case Dict(m) =>
        if "$class" !in m || !m["$class"].Text? {
          return None;
        }
        DictMembers(objects, m, x);
        var name := m["$class"].text;
        if IsDictionaryClass(name) {
          v := ArchiveDict(item, name, x.entries);
        } else {
          v := ArchiveRecord(item, name, x.entries);
        }
      case Array(items) =>
        ArrayMembers(objects, items, x);
        v := ArchiveArray(items, x.items);
      case _ =>
        v := Some(item);
    }

    /** The members of an array stay in place, each rewritten. */
    method ArchiveArray(items: seq<Value>, ghost xs: seq<Value>) returns (v: Option<Value>)
      requires Valid() && AllYield(objects, items, xs)
      modifies this
      ensures v.Some? <==> forall i :: 0 <= i < |items| ==> Archivable(specs, items[i])
      ensures v.Some? ==> Valid() && old(objects) <= objects && Yields(objects, v.value, Array(xs)) && v.value.Array?
      decreases items, 0
    {
      var done: seq<Value> := [];
      for k := 0 to |items|
        invariant Valid() && old(objects) <= objects
        invariant |done| == k && AllYield(objects, done, xs[..k])
        invariant AllYield(objects, items, xs)
        invariant forall i :: 0 <= i < k ==> Archivable(specs, items[i])
      {
        ghost var before := objects;
        var one := ArchiveObj(items[k], xs[k]);
        if one.None? {
          return None;
        }
        AllYieldMore(before, objects, done, xs[..k]);
        AllYieldMore(before, objects, items, xs);
        done := done + [one.value];
        assert xs[..k + 1] == xs[..k] + [xs[k]];
      }
      assert xs[..|items|] == xs;
      ArrayYields(objects, done, xs);
      v := Some(Array(done));
    }

    /** Every member is archived under its own Uid. */
    method ArchiveEach(items: seq<Value>, ghost xs: seq<Value>) returns (v: Option<Value>)
      requires Valid() && AllYield(objects, items, xs)
      modifies this
      ensures v.Some? <==> forall i :: 0 <= i < |items| ==> ArchivableKey(specs, items[i])
      ensures v.Some? ==> Valid() && old(objects) <= objects && Yields(objects, v.value, Array(xs)) && v.value.Array?
      decreases items, 2
    {
      var done: seq<Value> := [];
      for k := 0 to |items|
        invariant Valid() && old(objects) <= objects
        invariant |done| == k && AllYield(objects, done, xs[..k])
        invariant AllYield(objects, items, xs)
        invariant forall i :: 0 <= i < k ==> ArchivableKey(specs, items[i])
      {
        ghost var before := objects;
        var one := ArchiveKey(items[k], xs[k]);
        if one.None? {
          return None;
        }
        AllYieldMore(before, objects, done, xs[..k]);
        AllYieldMore(before, objects, items, xs);
        done := done + [Uid(one.value)];
        assert xs[..k + 1] == xs[..k] + [xs[k]];
      }
      assert xs[..|items|] == xs;
      ArrayYields(objects, done, xs);
      v := Some(Array(done));
    }

    /** A key of a dictionary, then the value under it. */
    method ArchivePair(key: string, item: Value, ghost x: Value) returns (uids: Option<(nat, nat)>)
      requires Valid() && Yields(objects, item, x)
      modifies this
      ensures uids.Some? <==> ArchivableKey(specs, item)
      ensures uids.Some? ==> Valid() && old(objects) <= objects
      ensures uids.Some? ==> Yields(objects, Uid(uids.value.0), Text(key)) && Yields(objects, Uid(uids.value.1), x)
      decreases item, 5
    {
      ghost var before := objects;
      var keyUid := ArchiveText(key);
      YieldsMore(before, objects, item, x);
      ghost var between := objects;
      var objectUid := ArchiveKey(item, x);
      if objectUid.None? {
        return None;
      }
      YieldsMore(between, objects, Uid(keyUid), Text(key));
      uids := Some((keyUid, objectUid.value));
    }

    /** `archive_dict`: keys and objects go into the table pairwise, in whatever order they come. */
    method ArchiveDict(dict: Value, name: string, ghost xs: map<string, Value>) returns (v: Option<Value>)
      requires Valid() && dict.Dict? && EntriesYield(objects, dict.entries, xs)
      requires IsDictionaryClass(name) && "$class" in dict.entries && xs["$class"] == Text(name)
      modifies this
      ensures v.Some? <==>
        (&& FindSpec(specs, name).Some?
         && forall k :: k in dict.entries && k != "$class" ==> ArchivableKey(specs, dict.entries[k]))
      ensures v.Some? ==> Valid() && old(objects) <= objects && Yields(objects, v.value, Dict(xs)) && !NamesNoClass(v.value)
      decreases dict, 0
    {
      var m := dict.entries;
      var todo := m.Keys - {"$class"};
      var keyUids: seq<Value>, objectUids: seq<Value> := [], [];
      ghost var keys: seq<string>, values: seq<Value> := [], [];
      while todo != {}
        invariant Valid() && old(objects) <= objects
        invariant todo <= m.Keys && "$class" !in todo && EntriesYield(objects, m, xs)
        invariant forall k :: k in m && k != "$class" <==> k in keys || k in todo
        invariant forall k :: k in keys ==> k !in todo && ArchivableKey(specs, m[k])
        invariant PairsYield(objects, keyUids, objectUids, keys, values, xs)
        decreases |todo|
      {
        var key: string :| key in todo;
        ghost var before := objects;
        var uids := ArchivePair(key, m[key], xs[key]);
        if uids.None? {
          return None;
        }
        EntriesYieldMore(before, objects, m, xs);
        NextPair(before, objects, keyUids, objectUids, keys, values, xs, key, uids.value.0, uids.value.1);
        keyUids, objectUids := keyUids + [Uid(uids.value.0)], objectUids + [Uid(uids.value.1)];
        keys, values := keys + [key], values + [xs[key]];
        todo := todo - {key};
      }
      v := FinishDict(name, keyUids, objectUids, keys, values, xs);
    }

    method FinishDict(name: string, keyUids: seq<Value>, objectUids: seq<Value>, ghost keys: seq<string>,
                      ghost values: seq<Value>, ghost xs: map<string, Value>) returns (v: Option<Value>)
      requires Valid() && IsDictionaryClass(name)
      requires PairsYield(objects, keyUids, objectUids, keys, values, xs)
      requires "$class" in xs && xs["$class"] == Text(name)
      requires forall k :: k in xs <==> k in keys || k == "$class"
      modifies this
      ensures v.Some? <==> FindSpec(specs, name).Some?
      ensures v.Some? ==> Valid() && old(objects) <= objects && Yields(objects, v.value, Dict(xs)) && !NamesNoClass(v.value)
    {
      ghost var before := objects;
      var classUid := GetClassKey(name);
      if classUid.None? {
        return None;
      }
      AllYieldMore(before, objects, keyUids, Texts(keys));
      AllYieldMore(before, objects, objectUids, values);
      ClassUidName(specs, objects, classUid.value, name);
      DictionaryYields(objects, classUid.value, name, keys, keyUids, objectUids, values, xs);
      v := Some(ArchivedDictionary(keyUids, objectUids, classUid.value));
    }

    /** A dictionary key, archived as a string. */
    method ArchiveText(text: string) returns (uid: nat)
      requires Valid()
      modifies this
      ensures Valid() && old(objects) <= objects && Yields(objects, Uid(uid), Text(text))
    {
      if Text(text) == NULL {
        return 0;
      }
      PushYields(objects, Text(text), Text(text));
      uid := Push(Text(text));
    }

    /** Any other dictionary: the class's fields are kept by reference, the rest in place. */
    method ArchiveRecord(dict: Value, name: string, ghost xs: map<string, Value>) returns (v: Option<Value>)
      requires Valid() && dict.Dict? && EntriesYield(objects, dict.entries, xs)
      requires !IsDictionaryClass(name) && "$class" in dict.entries && xs["$class"] == Text(name)
      modifies this
      ensures v.Some? <==>
        (&& FindSpec(specs, name).Some?
         && forall k :: k in dict.entries && k in FindSpec(specs, name).value.uidFields
              ==> ArchivableField(specs, dict.entries[k]))
      ensures v.Some? ==> Valid() && old(objects) <= objects && Yields(objects, v.value, Dict(xs)) && !NamesNoClass(v.value)
      decreases dict, 2
    {
      var m := dict.entries;
      ghost var start := objects;
      var classUid := GetClassKey(name);
      if classUid.None? {
        return None;
      }
      EntriesYieldMore(start, objects, m, xs);
      v := ArchiveFields(dict, name, classUid.value, xs);
    }

    method ArchiveFields(dict: Value, name: string, classUid: nat, ghost xs: map<string, Value>) returns (v: Option<Value>)
      requires Valid() && dict.Dict? && EntriesYield(objects, dict.entries, xs) && IsClassUid(specs, objects, classUid, name)
      requires !IsDictionaryClass(name) && "$class" in dict.entries && xs["$class"] == Text(name)
      modifies this
      ensures v.Some? <==>
        (forall k :: k in dict.entries && k in FindSpec(specs, name).value.uidFields
           ==> ArchivableField(specs, dict.entries[k]))
      ensures v.Some? ==> Valid() && old(objects) <= objects && Yields(objects, v.value, Dict(xs)) && !NamesNoClass(v.value)
      decreases dict, 1
    {
      var m := dict.entries;
      var fields := FindSpec(specs, name).value.uidFields;
      var entries := m["$class" := Uid(classUid)];
      NoFieldsYet(specs, objects, classUid, name, m, xs);
      for i := 0 to |fields|
        invariant Valid() && old(objects) <= objects
        invariant FieldsReady(specs, objects, classUid, name, m, entries, xs, fields[..i])
      {
        FieldIsNew(specs, name, i);
        var more := ArchiveOne(dict, entries, fields[i], name, classUid, xs, fields[..i]);
        if more.None? {
          assert fields[i] in fields;
          return None;
        }
        entries := more.value;
      }
      AllFieldsReady(specs, objects, classUid, name, m, entries, xs);
      v := Some(Dict(entries));
    }

    /** One field of a record, if it is there. */
    method ArchiveOne(dict: Value, entries: map<string, Value>, field: string, ghost name: string, ghost classUid: nat,
                      ghost xs: map<string, Value>, ghost done: seq<string>) returns (r: Option<map<string, Value>>)
      requires Valid() && dict.Dict? && FieldsReady(specs, objects, classUid, name, dict.entries, entries, xs, done)
      requires field !in done && field != "$class"
      modifies this
      ensures r.None? <==> field in dict.entries && !ArchivableField(specs, dict.entries[field])
      ensures r.Some? ==> Valid() && old(objects) <= objects
      ensures r.Some? ==> FieldsReady(specs, objects, classUid, name, dict.entries, r.value, xs, done + [field])
      decreases dict, 0
    {
      var m := dict.entries;
      if field !in entries {
        NoFieldReady(specs, objects, classUid, name, m, entries, xs, done, field);
        return Some(entries);
      }
      ghost var before := objects;
      assert Yields(objects, m[field], xs[field]);
      var one := ArchiveField(m[field], xs[field]);
      if one.None? {
        return None;
      }
      NextFieldReady(specs, before, objects, classUid, name, m, entries, xs, done, field, one.value);
      r := Some(entries[field := one.value]);
    }

    method ArchiveField(item: Value, ghost x: Value) returns (v: Option<Value>)
      requires Valid() && Yields(objects, item, x)
      modifies this
      ensures v.Some? <==> ArchivableField(specs, item)
      ensures v.Some? ==> Valid() && old(objects) <= objects && Yields(objects, v.value, x)
      decreases item, 5
    {
      if item.Array? {
        ArrayMembers(objects, item.items, x);
        v := ArchiveEach(item.items, x.items);
      } else {
        var uid := ArchiveKey(item, x);
        v := if uid.None? then None else Some(Uid(uid.value));
      }
    }
  }

  /** The fields in `done` are archived; the other entries are as they were. */
  ghost predicate FieldsSoFar(specs: seq<ClassData>, objects: seq<Value>, m: map<string, Value>,
                              entries: map<string, Value>, xs: map<string, Value>, done: seq<string>) {
    && entries.Keys == m.Keys
    && EntriesYield(objects, entries, xs)
    && (forall k :: k in m && k != "$class" && k !in done ==> entries[k] == m[k])
    && (forall k :: k in m && k in done ==> ArchivableField(specs, m[k]))
  }

  ghost predicate FieldsReady(specs: seq<ClassData>, objects: seq<Value>, classUid: nat, name: string, m: map<string, Value>,
                              entries: map<string, Value>, xs: map<string, Value>, done: seq<string>) {
    && IsClassUid(specs, objects, classUid, name)
    && FieldsSoFar(specs, objects, m, entries, xs, done)
    && "$class" in entries && entries["$class"] == Uid(classUid)
  }

  lemma NextFieldReady(specs: seq<ClassData>, before: seq<Value>, objects: seq<Value>, classUid: nat, name: string,
                       m: map<string, Value>, entries: map<string, Value>, xs: map<string, Value>, done: seq<string>,
                       field: string, v: Value)
    requires FieldsReady(specs, before, classUid, name, m, entries, xs, done) && before <= objects
    requires field in m && field != "$class" && ArchivableField(specs, m[field]) && Yields(objects, v, xs[field])
    ensures FieldsReady(specs, objects, classUid, name, m, entries[field := v], xs, done + [field])
  {
    NextField(specs, before, objects, m, entries, xs, done, field, v);
  }

  lemma NoFieldsYet(specs: seq<ClassData>, objects: seq<Value>, classUid: nat, name: string, m: map<string, Value>,
                    xs: map<string, Value>)
    requires IsClassUid(specs, objects, classUid, name) && EntriesYield(objects, m, xs) && "$class" in m
    ensures var fields := FindSpec(specs, name).value.uidFields;
      FieldsReady(specs, objects, classUid, name, m, m["$class" := Uid(classUid)], xs, fields[..0])
  {
  }

  lemma FieldIsNew(specs: seq<ClassData>, name: string, i: nat)
    requires AllDistinct(specs) && FindSpec(specs, name).Some? && i < |FindSpec(specs, name).value.uidFields|
    ensures var fields := FindSpec(specs, name).value.uidFields;
      fields[..i + 1] == fields[..i] + [fields[i]] && fields[i] !in fields[..i] && fields[i] != "$class"
  {
    SpecFields(specs, name);
    var fields := FindSpec(specs, name).value.uidFields;
    assert fields[i] in fields;
  }

  lemma AllFieldsReady(specs: seq<ClassData>, objects: seq<Value>, classUid: nat, name: string, m: map<string, Value>,
                       entries: map<string, Value>, xs: map<string, Value>)
    requires FindSpec(specs, name).Some? && !IsDictionaryClass(name) && "$class" in xs && xs["$class"] == Text(name)
    requires var fields := FindSpec(specs, name).value.uidFields;
      FieldsReady(specs, objects, classUid, name, m, entries, xs, fields[..|fields|])
    ensures Yields(objects, Dict(entries), Dict(xs)) && !NamesNoClass(Dict(entries))
    ensures forall k :: k in m && k in FindSpec(specs, name).value.uidFields ==> ArchivableField(specs, m[k])
  {
    var fields := FindSpec(specs, name).value.uidFields;
    assert fields[..|fields|] == fields;
    ClassUidName(specs, objects, classUid, name);
    RecordYields(objects, classUid, name, entries, xs);
  }

  /** A field that is not there is skipped. */
  lemma NoFieldReady(specs: seq<ClassData>, objects: seq<Value>, classUid: nat, name: string, m: map<string, Value>,
                     entries: map<string, Value>, xs: map<string, Value>, done: seq<string>, field: string)
    requires FieldsReady(specs, objects, classUid, name, m, entries, xs, done) && field !in m
    ensures FieldsReady(specs, objects, classUid, name, m, entries, xs, done + [field])
  {
  }

  lemma NextField(specs: seq<ClassData>, before: seq<Value>, objects: seq<Value>, m: map<string, Value>,
                  entries: map<string, Value>, xs: map<string, Value>, done: seq<string>, field: string, v: Value)
    requires FieldsSoFar(specs, before, m, entries, xs, done) && before <= objects
    requires field in m && field != "$class" && ArchivableField(specs, m[field])
    requires Yields(objects, v, xs[field])
    ensures FieldsSoFar(specs, objects, m, entries[field := v], xs, done + [field])
  {
    EntriesYieldMore(before, objects, entries, xs);
  }

  lemma SpecFields(specs: seq<ClassData>, name: string)
    requires AllDistinct(specs) && FindSpec(specs, name).Some?
    ensures FieldsDistinct(FindSpec(specs, name).value)
  {
  }

  /** The references written so far stand for the keys and values read so far. */
  ghost predicate PairsYield(objects: seq<Value>, keyUids: seq<Value>, objectUids: seq<Value>, keys: seq<string>,
                             values: seq<Value>, xs: map<string, Value>) {
    && Pairs(keys, values, xs)
    && AllYield(objects, keyUids, Texts(keys))
    && AllYield(objects, objectUids, values)
  }

  lemma NextPair(before: seq<Value>, objects: seq<Value>, keyUids: seq<Value>, objectUids: seq<Value>, keys: seq<string>,
                 values: seq<Value>, xs: map<string, Value>, key: string, keyUid: nat, objectUid: nat)
    requires PairsYield(before, keyUids, objectUids, keys, values, xs) && before <= objects
    requires key in xs && key !in keys
    requires Yields(objects, Uid(keyUid), Text(key)) && Yields(objects, Uid(objectUid), xs[key])
    ensures PairsYield(objects, keyUids + [Uid(keyUid)], objectUids + [Uid(objectUid)], keys + [key], values + [xs[key]], xs)
  {
    AllYieldMore(before, objects, keyUids, Texts(keys));
    AllYieldMore(before, objects, objectUids, values);
    assert Texts(keys + [key]) == Texts(keys) + [Text(key)];
  }

  // ----- whole archives -----

  /** `archive`: the objects of all items in one table, and the Uid of each item. */
  method Archive(items: map<string, Value>) returns (r: Option<(seq<Value>, map<string, nat>)>)
    requires forall k :: k in items ==> UidFree(items[k])
    ensures r.Some? <==> forall k :: k in items ==> ArchivableKey(CLASS_SPECS, items[k])
    ensures r.Some? ==> Archived(items, r.value.0, r.value.1)
  {
    SpecsDistinct();
    r := ArchiveWith(CLASS_SPECS, items);
  }

  /** References point backwards, no class has two records, and expanding an item's Uid gives the item back. */
  ghost predicate Archived(items: map<string, Value>, objects: seq<Value>, top: map<string, nat>) {
    && top.Keys == items.Keys
    && (forall i :: 0 <= i < |objects| ==> UidsBelow(objects[i], i))
    && OneRecordEach(objects)
    && forall k :: k in items ==> ExpandKey(objects, top[k], |objects|) == Some(items[k])
  }

  method ArchiveWith(specs: seq<ClassData>, items: map<string, Value>) returns (r: Option<(seq<Value>, map<string, nat>)>)
    requires AllDistinct(specs)
    requires forall k :: k in items ==> UidFree(items[k])
    ensures r.Some? <==> forall k :: k in items ==> ArchivableKey(specs, items[k])
    ensures r.Some? ==> Archived(items, r.value.0, r.value.1)
  {
    var archive := new KeyedArchive(specs);
    var top: map<string, nat> := map[];
    var todo := items.Keys;
    while todo != {}
      invariant fresh(archive) && archive.Valid() && archive.specs == specs
      invariant todo <= items.Keys && top.Keys == items.Keys - todo
      invariant TopYields(specs, archive.objects, top, items)
      decreases |todo|
    {
      var key: string :| key in todo;
      ghost var before := archive.objects;
      UidFreeYields(before, items[key]);
      var uid := archive.ArchiveKey(items[key], items[key]);
      if uid.None? {
        assert key in items && !ArchivableKey(specs, items[key]);
        return None;
      }
      NextTop(specs, before, archive.objects, top, items, key, uid.value);
      top := top[key := uid.value];
      todo := todo - {key};
    }
    FinishTop(specs, archive.objects, archive.classUids, top, items);
    r := Some((archive.objects, top));
  }

  lemma FinishTop(specs: seq<ClassData>, objects: seq<Value>, classUids: map<string, nat>, top: map<string, nat>,
                  items: map<string, Value>)
    requires TableValid(specs, objects, classUids) && RecordsKnown(objects, classUids) && TopYields(specs, objects, top, items)
    requires top.Keys == items.Keys
    ensures Archived(items, objects, top)
    ensures forall k :: k in items ==> ArchivableKey(specs, items[k])
  {
    RecordsOnce(specs, objects, classUids);
    forall k | k in items
      ensures ExpandKey(objects, top[k], |objects|) == Some(items[k])
    {
      assert k in top;
    }
  }

  ghost predicate TopYields(specs: seq<ClassData>, objects: seq<Value>, top: map<string, nat>, items: map<string, Value>) {
    forall k :: k in top ==> k in items && ArchivableKey(specs, items[k]) && Yields(objects, Uid(top[k]), items[k])
  }

  lemma NextTop(specs: seq<ClassData>, before: seq<Value>, objects: seq<Value>, top: map<string, nat>,
                items: map<string, Value>, key: string, uid: nat)
    requires TopYields(specs, before, top, items) && before <= objects
    requires key in items && ArchivableKey(specs, items[key]) && Yields(objects, Uid(uid), items[key])
    ensures TopYields(specs, objects, top[key := uid], items)
  {
    forall k | k in top
      ensures Yields(objects, Uid(top[k]), items[k])
    {
      YieldsMore(before, objects, Uid(top[k]), items[k]);
    }
  }

  lemma UidFreeYields(objects: seq<Value>, v: Value)
    requires UidFree(v)
    ensures Yields(objects, v, v)
  {
    ExpandUidFree(objects, v, |objects|);
    UidFreeBelow(v, |objects|);
  }
}
