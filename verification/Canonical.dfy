/**
 * The canonical form a booking request is hashed from: the same for two bodies exactly when they say
 * the same. Bodies are trees of scalars, arrays and objects; a property can be undefined, and counts
 * as missing then, but `null` says something.
 */
module Canonical {

  /** A property name as its sequence of UTF-16 code units. */
  type Key = seq<nat>

  /** A JavaScript value of plain data; an object lists its own properties in insertion order. */
  datatype Json =
    | Undefined
    | Null
    | Bool(flag: bool)
    | Number(n: int)
    | Text(text: Key)
    | Array(items: seq<Json>)
    | Object(fields: seq<Field>)

  datatype Field = Field(key: Key, value: Json)

  // ---- the order of sort()

  /** Lexicographic by code unit. */
  predicate Less(a: Key, b: Key) {
    if |b| == 0 then false
    else if |a| == 0 then true
    else a[0] < b[0] || (a[0] == b[0] && Less(a[1..], b[1..]))
  }

  lemma {:induction false} LessIsStrictOrder(a: Key, b: Key, c: Key)
    ensures !Less(a, a)
    ensures Less(a, b) && Less(b, c) ==> Less(a, c)
    ensures Less(a, b) || a == b || Less(b, a)
    ensures !(Less(a, b) && Less(b, a))
  {
    if |a| > 0 {
      LessIsStrictOrder(a[1..], if |b| > 0 then b[1..] else [], if |c| > 0 then c[1..] else []);
      if |b| > 0 {
        assert a == [a[0]] + a[1..] && b == [b[0]] + b[1..];
      }
    }
  }

  /** Strictly increasing by key. */
  ghost predicate Sorted(fields: seq<Field>) {
    forall i, j | 0 <= i < j < |fields| :: Less(fields[i].key, fields[j].key)
  }

  predicate HasKey(fields: seq<Field>, key: Key) {
    exists i | 0 <= i < |fields| :: fields[i].key == key
  }

  /** An object has at most one property of a name, at every depth. */
  ghost predicate WellFormed(v: Json) {
    match v
    case Array(items) => forall i | 0 <= i < |items| :: WellFormed(items[i])
    case Object(fields) =>
      && (forall i, j | 0 <= i < j < |fields| :: fields[i].key != fields[j].key)
      && forall i | 0 <= i < |fields| :: WellFormed(fields[i].value)
    case _ => true
  }

  // ---- canonicalize

  function Insert(fields: seq<Field>, f: Field): seq<Field> {
    if |fields| == 0 || Less(f.key, fields[0].key) then [f] + fields
    else [fields[0]] + Insert(fields[1..], f)
  }

  /** The properties that are not undefined, canonicalized and in key order. */
  function SortFields(fields: seq<Field>): seq<Field>
    decreases fields, 0
  {
    if |fields| == 0 then []
    else
      var rest := SortFields(fields[1..]);
      if fields[0].value.Undefined? then rest
      else Insert(rest, Field(fields[0].key, Canonicalize(fields[0].value)))
  }

  function CanonicalItems(items: seq<Json>): (r: seq<Json>)
    ensures |r| == |items|
    decreases items, 0
  {
    if |items| == 0 then [] else [Canonicalize(items[0])] + CanonicalItems(items[1..])
  }

  /** The normal form a body is digested in. */
  function Canonicalize(v: Json): Json
    decreases v, 1
  {
    match v
    case Array(items) => Array(CanonicalItems(items))
    case Object(fields) => Object(SortFields(fields))
    case _ => v
  }

  // ---- what it is to say the same

  /** The property of that name exists and is not undefined. */
  ghost predicate Defines(fields: seq<Field>, key: Key) {
    exists i | 0 <= i < |fields| :: fields[i].key == key && !fields[i].value.Undefined?
  }

  /** Equal up to key order and undefined properties at every depth; array order counts. */
  ghost predicate Same(v: Json, w: Json)
    decreases v
  {
    match v
    case Array(items) =>
      w.Array? && |w.items| == |items| && forall i | 0 <= i < |items| :: Same(items[i], w.items[i])
    case Object(fields) =>
      && w.Object?
      && (forall key :: Defines(fields, key) <==> Defines(w.fields, key))
      && forall i, j | 0 <= i < |fields| && 0 <= j < |w.fields| && fields[i].key == w.fields[j].key
                       && !fields[i].value.Undefined? && !w.fields[j].value.Undefined? ::
           Same(fields[i].value, w.fields[j].value)
    case _ => v == w
  }

  // ---- sorting facts

  lemma {:induction false} InsertKeeps(fields: seq<Field>, f: Field)
    requires Sorted(fields) && !HasKey(fields, f.key)
    ensures Sorted(Insert(fields, f))
    ensures forall g :: g in Insert(fields, f) <==> g in fields || g == f
  {
    if |fields| == 0 {
    } else if Less(f.key, fields[0].key) {
      forall j | 0 <= j < |fields| ensures Less(f.key, fields[j].key) {
        LessIsStrictOrder(f.key, fields[0].key, fields[j].key);
      }
    } else {
      var rest := fields[1..];
      assert forall j | 0 <= j < |rest| :: rest[j] == fields[j + 1];
      InsertKeeps(rest, f);
      var r := Insert(rest, f);
      LessIsStrictOrder(f.key, fields[0].key, f.key);
      assert fields[0].key != f.key;
      forall j | 0 <= j < |r| ensures Less(fields[0].key, r[j].key) {
        assert r[j] in r;
      }
      assert fields == [fields[0]] + rest;
    }
  }

  /** `g` is a defined property with its value canonicalized. */
  ghost predicate IsCanonicalEntry(fields: seq<Field>, g: Field) {
    exists i | 0 <= i < |fields| :: !fields[i].value.Undefined? && g == Field(fields[i].key, Canonicalize(fields[i].value))
  }

  /** The sorted properties are exactly the defined ones, canonicalized. */
  lemma {:induction false} SortFieldsHolds(fields: seq<Field>)
    requires forall i, j | 0 <= i < j < |fields| :: fields[i].key != fields[j].key
    ensures Sorted(SortFields(fields))
    ensures forall g :: g in SortFields(fields) <==> IsCanonicalEntry(fields, g)
  {
    if |fields| > 0 {
      var tail, head := fields[1..], fields[0];
      assert forall i | 0 <= i < |tail| :: tail[i] == fields[i + 1];
      SortFieldsHolds(tail);
      var rest := SortFields(tail);
      var f := Field(head.key, Canonicalize(head.value));
      forall g ensures IsCanonicalEntry(fields, g) <==> (!head.value.Undefined? && g == f) || IsCanonicalEntry(tail, g) {
        if IsCanonicalEntry(fields, g) {
          var i :| 0 <= i < |fields| && !fields[i].value.Undefined? && g == Field(fields[i].key, Canonicalize(fields[i].value));
          if i > 0 {
            assert tail[i - 1] == fields[i];
          }
        }
      }
      if !head.value.Undefined? {
        forall i | 0 <= i < |rest| ensures rest[i].key != f.key {
          assert rest[i] in rest;
        }
        InsertKeeps(rest, f);
      }
    }
  }

  lemma SomeMember(b: seq<Field>)
    requires |b| > 0
    ensures exists g :: g in b
  {
    assert b[0] in b;
  }

  /** A set of properties has one sorted list. */
  lemma {:induction false} SortedListIsUnique(a: seq<Field>, b: seq<Field>)
    requires Sorted(a) && Sorted(b)
    requires forall g :: g in a <==> g in b
    ensures a == b
  {
    if |a| == 0 {
      if |b| > 0 {
        SomeMember(b);
      }
    } else {
      assert a[0] in b && |b| > 0;
      assert b[0] in a;
      var i :| 0 <= i < |b| && b[i] == a[0];
      var j :| 0 <= j < |a| && a[j] == b[0];
      LessIsStrictOrder(a[0].key, b[0].key, a[0].key);
      assert a[0] == b[0];
      forall g ensures g in a[1..] <==> g in b[1..] {
        TailMembers(a, g);
        TailMembers(b, g);
      }
      SortedListIsUnique(a[1..], b[1..]);
      assert a == [a[0]] + a[1..] && b == [b[0]] + b[1..];
    }
  }

  lemma TailMembers(a: seq<Field>, g: Field)
    requires Sorted(a) && |a| > 0
    ensures g in a[1..] <==> g in a && g != a[0]
  {
    assert a == [a[0]] + a[1..];
    if g in a[1..] {
      var k :| 0 <= k < |a[1..]| && a[1..][k] == g;
      assert a[k + 1] == g;
      LessIsStrictOrder(a[0].key, g.key, g.key);
    }
  }

  lemma {:induction false} CanonicalItemsAt(items: seq<Json>, i: nat)
    requires i < |items|
    ensures CanonicalItems(items)[i] == Canonicalize(items[i])
  {
    if i > 0 {
      CanonicalItemsAt(items[1..], i - 1);
    }
  }

  // ---- the theorem

  /** The canonical object holds, under each defined name, the canonical form of the value, and nothing else. */
  lemma SortedEntry(fields: seq<Field>, i: nat, g: Field)
    requires WellFormed(Object(fields)) && i < |fields|
    ensures !fields[i].value.Undefined? ==> Field(fields[i].key, Canonicalize(fields[i].value)) in SortFields(fields)
    ensures g in SortFields(fields) && g.key == fields[i].key ==>
              !fields[i].value.Undefined? && g.value == Canonicalize(fields[i].value)
  {
    SortFieldsHolds(fields);
    if g in SortFields(fields) && g.key == fields[i].key {
      var k :| 0 <= k < |fields| && !fields[k].value.Undefined? && g == Field(fields[k].key, Canonicalize(fields[k].value));
      assert k == i;
    }
  }

  lemma SortedKeys(fields: seq<Field>, key: Key)
    requires WellFormed(Object(fields))
    ensures Defines(fields, key) <==> Defines(SortFields(fields), key)
    ensures Defines(fields, key) <==> HasKey(SortFields(fields), key)
  {
    SortFieldsHolds(fields);
    var sorted := SortFields(fields);
    if Defines(fields, key) {
      var i :| 0 <= i < |fields| && fields[i].key == key && !fields[i].value.Undefined?;
      var g := Field(fields[i].key, Canonicalize(fields[i].value));
      assert g in sorted;
      var j :| 0 <= j < |sorted| && sorted[j] == g;
      assert sorted[j].key == key && !sorted[j].value.Undefined?;
    }
    if HasKey(sorted, key) {
      var j :| 0 <= j < |sorted| && sorted[j].key == key;
      assert sorted[j] in sorted;
    }
  }

  lemma DistinctWhenSorted(fields: seq<Field>)
    requires Sorted(fields)
    ensures forall i, j | 0 <= i < j < |fields| :: fields[i].key != fields[j].key
  {
    forall i, j | 0 <= i < j < |fields| ensures fields[i].key != fields[j].key {
      LessIsStrictOrder(fields[i].key, fields[j].key, fields[i].key);
    }
  }

  /** Canonicalizing says nothing else than the value said. */
  lemma {:induction false} CanonicalSaysTheSame(v: Json)
    requires WellFormed(v)
    ensures WellFormed(Canonicalize(v)) && Same(v, Canonicalize(v))
  {
    match v
    case Array(items) =>
      forall i | 0 <= i < |items|
        ensures WellFormed(CanonicalItems(items)[i]) && Same(items[i], CanonicalItems(items)[i])
      {
        CanonicalItemsAt(items, i);
        CanonicalSaysTheSame(items[i]);
      }
    case Object(fields) =>
      var sorted := SortFields(fields);
      SortFieldsHolds(fields);
      DistinctWhenSorted(sorted);
      forall key ensures Defines(fields, key) <==> Defines(sorted, key) { SortedKeys(fields, key); }
      forall j | 0 <= j < |sorted| ensures WellFormed(sorted[j].value) {
        assert sorted[j] in sorted;
        var i :| 0 <= i < |fields| && !fields[i].value.Undefined? && sorted[j] == Field(fields[i].key, Canonicalize(fields[i].value));
        CanonicalSaysTheSame(fields[i].value);
      }
      forall i, j | 0 <= i < |fields| && 0 <= j < |sorted| && fields[i].key == sorted[j].key
                    && !fields[i].value.Undefined? && !sorted[j].value.Undefined?
        ensures Same(fields[i].value, sorted[j].value)
      {
        assert sorted[j] in sorted;
        SortedEntry(fields, i, sorted[j]);
        CanonicalSaysTheSame(fields[i].value);
      }
    case _ =>
  }

  lemma {:induction false} SameIsCanonicallyEqual(v: Json, w: Json)
    requires WellFormed(v) && WellFormed(w) && Same(v, w)
    ensures Canonicalize(v) == Canonicalize(w)
    decreases v
  {
    match v
    case Array(items) =>
      forall i | 0 <= i < |items| ensures CanonicalItems(items)[i] == CanonicalItems(w.items)[i] {
        CanonicalItemsAt(items, i);
        CanonicalItemsAt(w.items, i);
        SameIsCanonicallyEqual(items[i], w.items[i]);
      }
    case Object(fields) =>
      var a, b := SortFields(fields), SortFields(w.fields);
      SortFieldsHolds(fields);
      SortFieldsHolds(w.fields);
      forall i, j | 0 <= i < |fields| && 0 <= j < |w.fields| && fields[i].key == w.fields[j].key
                    && !fields[i].value.Undefined? && !w.fields[j].value.Undefined?
        ensures Canonicalize(fields[i].value) == Canonicalize(w.fields[j].value)
      {
        SameIsCanonicallyEqual(fields[i].value, w.fields[j].value);
      }
      forall g ensures g in a <==> g in b {
        if g in a {
          var i :| 0 <= i < |fields| && !fields[i].value.Undefined? && g == Field(fields[i].key, Canonicalize(fields[i].value));
          assert Defines(fields, g.key);
          var j :| 0 <= j < |w.fields| && w.fields[j].key == g.key && !w.fields[j].value.Undefined?;
        }
        if g in b {
          var j :| 0 <= j < |w.fields| && !w.fields[j].value.Undefined? && g == Field(w.fields[j].key, Canonicalize(w.fields[j].value));
          assert Defines(w.fields, g.key);
          var i :| 0 <= i < |fields| && fields[i].key == g.key && !fields[i].value.Undefined?;
        }
      }
      SortedListIsUnique(a, b);
    case _ =>
  }

  lemma {:induction false} CanonicallyEqualIsSame(v: Json, w: Json)
    requires WellFormed(v) && WellFormed(w) && Canonicalize(v) == Canonicalize(w)
    ensures Same(v, w)
    decreases v
  {
    match v
    case Array(items) =>
      forall i | 0 <= i < |items| ensures Same(items[i], w.items[i]) {
        CanonicalItemsAt(items, i);
        CanonicalItemsAt(w.items, i);
        CanonicallyEqualIsSame(items[i], w.items[i]);
      }
    case Object(fields) =>
      forall key ensures Defines(fields, key) <==> Defines(w.fields, key) {
        SortedKeys(fields, key);
        SortedKeys(w.fields, key);
      }
      forall i, j | 0 <= i < |fields| && 0 <= j < |w.fields| && fields[i].key == w.fields[j].key
                    && !fields[i].value.Undefined? && !w.fields[j].value.Undefined?
        ensures Same(fields[i].value, w.fields[j].value)
      {
        var g := Field(fields[i].key, Canonicalize(fields[i].value));
        SortedEntry(fields, i, g);
        SortedEntry(w.fields, j, g);
        CanonicallyEqualIsSame(fields[i].value, w.fields[j].value);
      }
    case _ =>
  }

  /** Two bodies have one canonical form exactly when they are equal up to key order and undefined properties. */
  lemma CanonicalExactly(v: Json, w: Json)
    requires WellFormed(v) && WellFormed(w)
    ensures Canonicalize(v) == Canonicalize(w) <==> Same(v, w)
  {
    if Same(v, w) {
      SameIsCanonicallyEqual(v, w);
    }
    if Canonicalize(v) == Canonicalize(w) {
      CanonicallyEqualIsSame(v, w);
    }
  }

  lemma CanonicalizeIsIdempotent(v: Json)
    requires WellFormed(v)
    ensures Canonicalize(Canonicalize(v)) == Canonicalize(v)
  {
    CanonicalSaysTheSame(v);
    SameIsCanonicallyEqual(v, Canonicalize(v));
  }

  /** Bodies of one canonical form carry the same text under a name, such as the quote token: the digest tells the quote. */
  lemma CanonicalTellsText(fields: seq<Field>, other: seq<Field>, key: Key, text: Key)
    requires WellFormed(Object(fields)) && WellFormed(Object(other)) && Canonicalize(Object(fields)) == Canonicalize(Object(other))
    ensures Field(key, Text(text)) in fields <==> Field(key, Text(text)) in other
  {
    CanonicalExactly(Object(fields), Object(other));
    CanonicalExactly(Object(other), Object(fields));
    if Field(key, Text(text)) in fields {
      TextIsShared(fields, other, key, text);
    }
    if Field(key, Text(text)) in other {
      TextIsShared(other, fields, key, text);
    }
  }

  lemma TextIsShared(fields: seq<Field>, other: seq<Field>, key: Key, text: Key)
    requires Same(Object(fields), Object(other)) && Field(key, Text(text)) in fields
    ensures Field(key, Text(text)) in other
  {
    var i :| 0 <= i < |fields| && fields[i] == Field(key, Text(text));
    assert Defines(fields, key);
    var j :| 0 <= j < |other| && other[j].key == key && !other[j].value.Undefined?;
    assert Same(fields[i].value, other[j].value);
  }
}
