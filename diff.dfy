/** `buildFieldDiffDeep` (src/common/utils/diff.utils.ts): the field-by-field
    difference between two snapshots of a record that update operations store
    as audit metadata.

    JavaScript values are modelled by `Json`. A plain object keeps its keys in
    insertion order, as an association list; reading a key it does not have
    gives `Undefined`. The two snapshots come from two separate store reads,
    so no object or array of one is the same reference as one of the other:
    `!==` is therefore true whenever either side is an object or an array. */
module DiffUtils {
  import opened Common

  datatype Json =
    | Undefined
    | Null
    | Bool(b: bool)
    | Num(n: int)
    | Str(s: string)
    | Arr(items: seq<Json>)
    | Obj(entries: seq<Entry>)

  datatype Entry = Entry(key: string, value: Json)

  /** `{ from, to }`, or the sub-diff of two plain objects. */
  datatype FieldDiff =
    | FromTo(from: Json, to: Json)
    | Nested(changes: seq<KeyDiff>)

  /** One key of the result dictionary. */
  datatype KeyDiff = KeyDiff(key: string, diff: FieldDiff)

  /** `record[key]`: the value of the first entry with that key. */
  function Get(e: seq<Entry>, key: string): (v: Json)
    ensures v.Undefined? || exists j :: 0 <= j < |e| && e[j].value == v
    ensures (forall j :: 0 <= j < |e| ==> e[j].key != key) ==> v.Undefined?
  {
    if |e| == 0 then Undefined
    else if e[0].key == key then e[0].value
    else Get(e[1..], key)
  }

  function KeysOf(e: seq<Entry>): (ks: seq<string>)
    ensures |ks| == |e|
    ensures forall j :: 0 <= j < |e| ==> ks[j] == e[j].key
  {
    seq(|e|, j requires 0 <= j < |e| => e[j].key)
  }

  /** The keys of `s` in order of first occurrence. */
  function Distinct(s: seq<string>): (r: seq<string>)
    ensures forall k :: k in r <==> k in s
    ensures forall i, j :: 0 <= i < j < |r| ==> r[i] != r[j]
  {
    if |s| == 0 then []
    else
      var p := Distinct(s[..|s| - 1]);
      assert s == s[..|s| - 1] + [s[|s| - 1]];
      if s[|s| - 1] in p then p else p + [s[|s| - 1]]
  }

  /** `Object.keys({ ...a, ...b })`. */
  function UnionKeys(a: seq<Entry>, b: seq<Entry>): (ks: seq<string>)
    ensures forall k :: k in ks <==> k in KeysOf(a) || k in KeysOf(b)
  {
    Distinct(KeysOf(a) + KeysOf(b))
  }

  /** The JSON text of a value is fixed by this normal form: `undefined`
      inside an array prints as `null` and an object key whose value is
      `undefined` is not printed at all. */
  function Normal(v: Json): Json {
    match v
    case Arr(items) =>
      Arr(seq(|items|, i requires 0 <= i < |items| =>
        if items[i].Undefined? then Null else Normal(items[i])))
    case Obj(e) => Obj(NormalEntries(e))
    case _ => v
  }

  function NormalEntries(e: seq<Entry>): seq<Entry> {
    if |e| == 0 then []
    else if e[0].value.Undefined? then NormalEntries(e[1..])
    else [Entry(e[0].key, Normal(e[0].value))] + NormalEntries(e[1..])
  }

  /** `JSON.stringify(a) === JSON.stringify(b)`. */
  predicate SameJsonText(a: Json, b: Json) {
    Normal(a) == Normal(b)
  }

  /** `a === b` for two values read from two different snapshots. */
  predicate StrictEqual(a: Json, b: Json) {
    !a.Arr? && !a.Obj? && !b.Arr? && !b.Obj? && a == b
  }

  predicate IsPlainObject(v: Json) { v.Obj? }

  /** `v ?? null` */
  function OrNull(v: Json): Json {
    if v.Undefined? then Null else v
  }

  /** The value of the first entry carrying `key`. */
  lemma {:induction false} GetFirst(e: seq<Entry>, k: nat, key: string)
    requires k < |e| && e[k].key == key
    requires forall j :: 0 <= j < k ==> e[j].key != key
    ensures Get(e, key) == e[k].value
  {
    if k > 0 {
      GetFirst(e[1..], k - 1, key);
    }
  }

  /** `result[key] = d`: an existing key keeps its place, a new key goes last. */
  function Put(r: seq<KeyDiff>, key: string, d: FieldDiff): (r': seq<KeyDiff>)
    ensures Lookup(r', key) == Some(d)
    ensures forall k :: k != key ==> Lookup(r', k) == Lookup(r, k)
  {
    if |r| == 0 then [KeyDiff(key, d)]
    else if r[0].key == key then [KeyDiff(key, d)] + r[1..]
    else [r[0]] + Put(r[1..], key, d)
  }

  /** The diff recorded under `key`, if any. */
  function Lookup(r: seq<KeyDiff>, key: string): Option<FieldDiff> {
    if |r| == 0 then None
    else if r[0].key == key then Some(r[0].diff)
    else Lookup(r[1..], key)
  }

  /** What one iteration of the loop records for `key`, if anything. */
  function FieldChange(before: seq<Entry>, after: seq<Entry>, key: string): (d: Option<FieldDiff>)
    decreases before, 0
  {
    var oldVal := Get(before, key);
    var newVal := Get(after, key);
    if IsPlainObject(oldVal) && IsPlainObject(newVal) then
      var sub := DiffFields(oldVal.entries, newVal.entries, UnionKeys(oldVal.entries, newVal.entries));
      if |sub| > 0 then Some(Nested(sub)) else None
    else if oldVal.Arr? && newVal.Arr? then
      if !SameJsonText(oldVal, newVal) then Some(FromTo(oldVal, newVal)) else None
    else if !StrictEqual(oldVal, newVal) then
      Some(FromTo(OrNull(oldVal), OrNull(newVal)))
    else None
  }

  /** The result after the loop has visited `fields` in order. */
  function DiffFields(before: seq<Entry>, after: seq<Entry>, fields: seq<string>): (r: seq<KeyDiff>)
    decreases before, 1, |fields|
    ensures forall k :: Lookup(r, k).Some? ==> k in fields
  {
    if |fields| == 0 then []
    else
      var prev := DiffFields(before, after, fields[..|fields| - 1]);
      var key := fields[|fields| - 1];
      match FieldChange(before, after, key)
      case None => prev
      case Some(d) => Put(prev, key, d)
  }

  /** The loop of `buildFieldDiffDeep`, recursing into nested plain objects. */
  method BuildFieldDiffDeep(before: seq<Entry>, after: seq<Entry>, fields: seq<string>)
    returns (result: seq<KeyDiff>)
    decreases before
    ensures result == DiffFields(before, after, fields)
  {
    result := [];
    for i := 0 to |fields|
      invariant result == DiffFields(before, after, fields[..i])
    {
      var key := fields[i];
      assert fields[..i + 1][..i] == fields[..i];
      var oldVal := Get(before, key);
      var newVal := Get(after, key);
      if IsPlainObject(oldVal) && IsPlainObject(newVal) {
        var subDiff := BuildFieldDiffDeep(oldVal.entries, newVal.entries,
                                          UnionKeys(oldVal.entries, newVal.entries));
        if |subDiff| > 0 {
          result := Put(result, key, Nested(subDiff));
        }
      } else if oldVal.Arr? && newVal.Arr? {
        if !SameJsonText(oldVal, newVal) {
          result := Put(result, key, FromTo(oldVal, newVal));
        }
      } else if !StrictEqual(oldVal, newVal) {
        result := Put(result, key, FromTo(OrNull(oldVal), OrNull(newVal)));
      }
    }
    assert fields[..|fields|] == fields;
  }

  /** The result holds exactly the keys of `fields` whose comparison records
      something, each with what it records. */
  lemma {:induction false} DiffFieldsLookup(before: seq<Entry>, after: seq<Entry>, fields: seq<string>, key: string)
    ensures Lookup(DiffFields(before, after, fields), key)
         == if key in fields then FieldChange(before, after, key) else None
  {
    if |fields| > 0 {
      var init := fields[..|fields| - 1];
      assert fields == init + [fields[|fields| - 1]];
      DiffFieldsLookup(before, after, init, key);
    }
  }

  /** Two primitives (or `undefined`) are recorded iff they differ, with
      `undefined` reported as `null`. */
  lemma PrimitiveFieldDiff(before: seq<Entry>, after: seq<Entry>, fields: seq<string>, key: string)
    requires key in fields
    requires !Get(before, key).Arr? && !Get(before, key).Obj?
    requires !Get(after, key).Arr? && !Get(after, key).Obj?
    ensures Lookup(DiffFields(before, after, fields), key)
         == if Get(before, key) == Get(after, key) then None
            else Some(FromTo(OrNull(Get(before, key)), OrNull(Get(after, key))))
  {
    DiffFieldsLookup(before, after, fields, key);
  }

  /** Two arrays are compared by their JSON text and reported unchanged. */
  lemma ArrayFieldDiff(before: seq<Entry>, after: seq<Entry>, fields: seq<string>, key: string)
    requires key in fields
    requires Get(before, key).Arr? && Get(after, key).Arr?
    ensures Lookup(DiffFields(before, after, fields), key)
         == if SameJsonText(Get(before, key), Get(after, key)) then None
            else Some(FromTo(Get(before, key), Get(after, key)))
  {
    DiffFieldsLookup(before, after, fields, key);
  }

  /** Two plain objects are diffed over the union of their keys and recorded
      only when that sub-diff is not empty. */
  lemma ObjectFieldDiff(before: seq<Entry>, after: seq<Entry>, fields: seq<string>, key: string)
    requires key in fields
    requires Get(before, key).Obj? && Get(after, key).Obj?
    ensures var o, n := Get(before, key).entries, Get(after, key).entries;
            var sub := DiffFields(o, n, UnionKeys(o, n));
            Lookup(DiffFields(before, after, fields), key) == if |sub| == 0 then None else Some(Nested(sub))
  {
    DiffFieldsLookup(before, after, fields, key);
  }

  /** An object or array compared with a value of another kind is always
      recorded, through the `!==` branch. */
  lemma MixedKindsFieldDiff(before: seq<Entry>, after: seq<Entry>, fields: seq<string>, key: string)
    requires key in fields
    requires var o, n := Get(before, key), Get(after, key);
             (o.Obj? && !n.Obj?) || (!o.Obj? && n.Obj?) || (o.Arr? && !n.Arr?) || (!o.Arr? && n.Arr?)
    ensures Lookup(DiffFields(before, after, fields), key)
         == Some(FromTo(OrNull(Get(before, key)), OrNull(Get(after, key))))
  {
    DiffFieldsLookup(before, after, fields, key);
  }

  /** No key outside `fields` is ever reported. */
  lemma OnlyRequestedFields(before: seq<Entry>, after: seq<Entry>, fields: seq<string>, key: string)
    requires key !in fields
    ensures Lookup(DiffFields(before, after, fields), key) == None
  {
    DiffFieldsLookup(before, after, fields, key);
  }

  /** A field that holds a string or null on both sides is recorded exactly
      when it was requested and its value differs. */
  lemma ScalarFieldDiff(before: seq<Entry>, after: seq<Entry>, fields: seq<string>, key: string)
    requires Get(before, key).Str? || Get(before, key).Null?
    requires Get(after, key).Str? || Get(after, key).Null?
    ensures Lookup(DiffFields(before, after, fields), key)
         == if key in fields && Get(before, key) != Get(after, key)
            then Some(FromTo(Get(before, key), Get(after, key))) else None
  {
    DiffFieldsLookup(before, after, fields, key);
  }

  lemma {:induction false} FieldUnchanged(e: seq<Entry>, key: string)
    decreases e, 0
    ensures FieldChange(e, e, key) == None
  {
    var v := Get(e, key);
    if v.Obj? {
      SelfDiffEmpty(v.entries, UnionKeys(v.entries, v.entries));
    }
  }

  /** Diffing a record against an identical snapshot records nothing. */
  lemma {:induction false} SelfDiffEmpty(e: seq<Entry>, fields: seq<string>)
    decreases e, 1, |fields|
    ensures DiffFields(e, e, fields) == []
  {
    if |fields| > 0 {
      SelfDiffEmpty(e, fields[..|fields| - 1]);
      FieldUnchanged(e, fields[|fields| - 1]);
    }
  }
}
