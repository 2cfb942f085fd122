/**
 * The canonical form behind every hash and signature of a draw proof: `sortKeys` rebuilds each
 * object with its keys in order, and the rebuilt value is printed.
 */
module Canonical {

  import opened Sequences
  import opened DecimalText
  import opened TextOrder
  import opened Json
  import Sorting

  // ----- Key order ------------------------------------------------------------

  /** Keys that objects enumerate first, by number (ECMA-262 section 10.1.11). */
  predicate IsArrayIndex(k: string) {
    k != "" && AllDigits(k) && (k[0] == '0' ==> |k| == 1) && NatValue(k) < 0xFFFF_FFFF
  }

  /** The order in which an object built in sorted key order enumerates its keys. */
  predicate KeyLe(a: string, b: string) {
    if IsArrayIndex(a) then
      IsArrayIndex(b) ==> NatValue(a) <= NatValue(b)
    else
      !IsArrayIndex(b) && TextLe(a, b)
  }

  predicate MemberLe(a: Member, b: Member) {
    KeyLe(a.key, b.key)
  }

  lemma KeyLeTotal(a: string, b: string)
    ensures KeyLe(a, b) || KeyLe(b, a)
    ensures KeyLe(a, b) && KeyLe(b, a) ==> a == b
  {
    TextLeTotal(a, b);
    if IsArrayIndex(a) && IsArrayIndex(b) {
      NatTextUnique(a);
      NatTextUnique(b);
    }
  }

  lemma KeyLeTransitive(a: string, b: string, c: string)
    requires KeyLe(a, b) && KeyLe(b, c)
    ensures KeyLe(a, c)
  {
    if !IsArrayIndex(a) {
      TextLeTransitive(a, b, c);
    }
  }

  lemma MembersOrdered()
    ensures Sorting.TotalPreorder(MemberLe)
  {
    forall x: Member, y: Member ensures MemberLe(x, y) || MemberLe(y, x) {
      KeyLeTotal(x.key, y.key);
    }
    forall x: Member, y: Member, z: Member | MemberLe(x, y) && MemberLe(y, z) ensures MemberLe(x, z) {
      KeyLeTransitive(x.key, y.key, z.key);
    }
  }

  // ----- sortKeys and canonicalize --------------------------------------------

  /** Assigning to this key sets the prototype of an object and makes no member. */
  const PROTO := "__proto__"

  function SortKeys(v: Json): Json
    decreases v, 1
  {
    match v
    case JArray(items) => JArray(SortKeysItems(items))
    case JObject(ms) => JObject(Sorting.Sort(MemberLe, SortKeysMembers(ms)))
    case _ => v
  }

  function SortKeysItems(items: seq<Json>): seq<Json>
    decreases items, 0
  {
    if items == [] then [] else [SortKeys(items[0])] + SortKeysItems(items[1..])
  }

  function SortKeysMembers(ms: seq<Member>): seq<Member>
    decreases ms, 0
  {
    if ms == [] then []
    else if ms[0].key == PROTO then SortKeysMembers(ms[1..])
    else [Member(ms[0].key, SortKeys(ms[0].value))] + SortKeysMembers(ms[1..])
  }

  function Without(ms: seq<Member>, key: string): seq<Member> {
    if ms == [] then []
    else if ms[0].key == key then Without(ms[1..], key)
    else [ms[0]] + Without(ms[1..], key)
  }

  /** `JSON.stringify(sortKeys(v))`. */
  function CanonicalText(v: Json): string {
    Stringify(SortKeys(v))
  }

  /** `canonicalize(proof)`: the `signature` member is overwritten with undefined, so it is not printed. */
  function Canonicalize(proof: seq<Member>): string {
    CanonicalText(JObject(Without(proof, "signature")))
  }

  // ----- What a value means ---------------------------------------------------

  /** A value up to the order of its keys: objects are finite maps. */
  datatype Meaning =
    | MNull
    | MBool(b: bool)
    | MNumber(text: string)
    | MString(s: string)
    | MArray(items: seq<Meaning>)
    | MObject(fields: map<string, Meaning>)

  function MeaningOf(v: Json): Meaning
    decreases v, 1
  {
    match v
    case JNull => MNull
    case JBool(b) => MBool(b)
    case JNumber(t) => MNumber(t)
    case JString(s) => MString(s)
    case JArray(items) => MArray(MeaningOfItems(items))
    case JObject(ms) => MObject(MeaningOfMembers(ms))
  }

  function MeaningOfItems(items: seq<Json>): seq<Meaning>
    decreases items, 0
  {
    if items == [] then [] else [MeaningOf(items[0])] + MeaningOfItems(items[1..])
  }

  function MeaningOfMembers(ms: seq<Member>): map<string, Meaning>
    decreases ms, 0
  {
    if ms == [] then map[] else MeaningOfMembers(ms[1..])[ms[0].key := MeaningOf(ms[0].value)]
  }

  /** The value without its `__proto__` members, at every depth. */
  function DropProto(v: Json): Json
    decreases v, 1
  {
    match v
    case JArray(items) => JArray(DropProtoItems(items))
    case JObject(ms) => JObject(DropProtoMembers(ms))
    case _ => v
  }

  function DropProtoItems(items: seq<Json>): seq<Json>
    decreases items, 0
  {
    if items == [] then [] else [DropProto(items[0])] + DropProtoItems(items[1..])
  }

  function DropProtoMembers(ms: seq<Member>): seq<Member>
    decreases ms, 0
  {
    if ms == [] then []
    else if ms[0].key == PROTO then DropProtoMembers(ms[1..])
    else [Member(ms[0].key, DropProto(ms[0].value))] + DropProtoMembers(ms[1..])
  }

  /** No object in the value has a member called `__proto__`. */
  predicate NoProto(v: Json)
    decreases v, 1
  {
    match v
    case JArray(items) => forall x | x in items :: NoProto(x)
    case JObject(ms) => forall m | m in ms :: m.key != PROTO && NoProto(m.value)
    case _ => true
  }

  // ----- Normal forms ---------------------------------------------------------

  /** Every object enumerates its keys in order. */
  predicate Normal(v: Json) {
    match v
    case JArray(items) => forall x | x in items :: Normal(x)
    case JObject(ms) => NormalMembers(ms)
    case _ => true
  }

  predicate NormalMembers(ms: seq<Member>) {
    && (forall i, j | 0 <= i < j < |ms| :: MemberLe(ms[i], ms[j]))
    && UniqueKeys(ms)
    && forall m | m in ms :: Normal(m.value)
  }

  lemma {:induction false} MeaningKeys(ms: seq<Member>)
    ensures forall k :: k in MeaningOfMembers(ms) <==> exists m :: m in ms && m.key == k
    ensures UniqueKeys(ms) ==> forall m | m in ms :: MeaningOfMembers(ms)[m.key] == MeaningOf(m.value)
  {
    if ms != [] {
      MeaningKeys(ms[1..]);
      assert forall m :: m in ms <==> m == ms[0] || m in ms[1..];
      forall k ensures k in MeaningOfMembers(ms) <==> exists m :: m in ms && m.key == k {
        if k == ms[0].key {
          assert ms[0] in ms;
        }
      }
    }
  }

  lemma {:induction false} MeaningHeadRemoved(ms: seq<Member>)
    requires ms != [] && UniqueKeys(ms)
    ensures MeaningOfMembers(ms[1..]) == MeaningOfMembers(ms) - {ms[0].key}
  {
    MeaningKeys(ms[1..]);
    AddedRemoved(MeaningOfMembers(ms[1..]), ms[0].key, MeaningOf(ms[0].value));
  }

  lemma AddedRemoved<V>(fields: map<string, V>, key: string, value: V)
    requires key !in fields
    ensures fields[key := value] - {key} == fields
  {
  }

  /** Two values in normal form with the same meaning are the same value. */
  lemma {:induction false} NormalUnique(v: Json, w: Json)
    requires Normal(v) && Normal(w)
    requires MeaningOf(v) == MeaningOf(w)
    ensures v == w
    decreases v, 1
  {
    match v
    case JArray(items) => NormalItemsUnique(items, w.items);
    case JObject(ms) => NormalMembersUnique(ms, w.members);
    case _ =>
  }

  lemma {:induction false} NormalItemsUnique(a: seq<Json>, b: seq<Json>)
    requires (forall x | x in a :: Normal(x)) && (forall x | x in b :: Normal(x))
    requires MeaningOfItems(a) == MeaningOfItems(b)
    ensures a == b
    decreases a, 0
  {
    assert |MeaningOfItems(a)| == |a| && |MeaningOfItems(b)| == |b| by {
      MeaningOfItemsLength(a);
      MeaningOfItemsLength(b);
    }
    if a != [] {
      assert MeaningOf(a[0]) == MeaningOfItems(a)[0] && MeaningOf(b[0]) == MeaningOfItems(b)[0];
      NormalUnique(a[0], b[0]);
      assert MeaningOfItems(a)[1..] == MeaningOfItems(a[1..]);
      assert MeaningOfItems(b)[1..] == MeaningOfItems(b[1..]);
      NormalItemsUnique(a[1..], b[1..]);
      assert a == [a[0]] + a[1..] && b == [b[0]] + b[1..];
    }
  }

  lemma MeaningOfItemsLength(items: seq<Json>)
    ensures |MeaningOfItems(items)| == |items|
  {
  }

  lemma NormalHeads(a: seq<Member>, b: seq<Member>)
    requires NormalMembers(a) && NormalMembers(b) && a != []
    requires MeaningOfMembers(a) == MeaningOfMembers(b)
    ensures b != [] && a[0].key == b[0].key && MeaningOf(a[0].value) == MeaningOf(b[0].value)
  {
    MeaningKeys(a);
    MeaningKeys(b);
    assert a[0] in a && a[0].key in MeaningOfMembers(b);
    assert b[0] in b && b[0].key in MeaningOfMembers(a);
    var m :| m in b && m.key == a[0].key;
    var n :| n in a && n.key == b[0].key;
    KeyLeTotal(a[0].key, b[0].key);
    KeyLeTotal(a[0].key, a[0].key);
    KeyLeTotal(b[0].key, b[0].key);
  }

  lemma {:induction false} NormalMembersUnique(a: seq<Member>, b: seq<Member>)
    requires NormalMembers(a) && NormalMembers(b)
    requires MeaningOfMembers(a) == MeaningOfMembers(b)
    ensures a == b
    decreases a, 0
  {
    if a == [] {
      if b != [] {
        NormalHeads(b, a);
      }
    } else {
      NormalHeads(a, b);
      NormalTail(a);
      NormalTail(b);
      NormalUnique(a[0].value, b[0].value);
      MeaningHeadRemoved(a);
      MeaningHeadRemoved(b);
      NormalMembersUnique(a[1..], b[1..]);
      SameHeadTail(a, b);
    }
  }

  lemma NormalTail(ms: seq<Member>)
    requires ms != [] && NormalMembers(ms)
    ensures NormalMembers(ms[1..]) && Normal(ms[0].value)
  {
    assert ms[0] in ms;
  }

  lemma SameHeadTail(a: seq<Member>, b: seq<Member>)
    requires a != [] && b != [] && a[1..] == b[1..]
    requires a[0].key == b[0].key && a[0].value == b[0].value
    ensures a == b
  {
    HeadTail(a);
    HeadTail(b);
  }

  // ----- sortKeys produces the normal form of the value without __proto__ --------

  lemma {:induction false} SortedMembersMean(ms: seq<Member>, m: Member)
    requires forall x | x in ms :: x.key != m.key
    ensures MeaningOfMembers(Sorting.Insert(MemberLe, m, ms)) == MeaningOfMembers(ms)[m.key := MeaningOf(m.value)]
  {
    if ms == [] || MemberLe(m, ms[0]) {
      assert ([m] + ms)[1..] == ms;
    } else {
      SortedMembersMean(ms[1..], m);
      var r := [ms[0]] + Sorting.Insert(MemberLe, m, ms[1..]);
      assert r[1..] == Sorting.Insert(MemberLe, m, ms[1..]);
      assert ms[0].key != m.key;
    }
  }

  /** Sorting the members of an object does not change what it means. */
  lemma {:induction false} SortKeepsMeaning(ms: seq<Member>)
    requires UniqueKeys(ms)
    ensures MeaningOfMembers(Sorting.Sort(MemberLe, ms)) == MeaningOfMembers(ms)
  {
    if ms != [] {
      SortKeepsMeaning(ms[1..]);
      var tail := Sorting.Sort(MemberLe, ms[1..]);
      Sorting.SortPermutes(MemberLe, ms[1..]);
      forall x | x in tail ensures x.key != ms[0].key {
        assert x in multiset(tail);
        assert x in ms[1..];
      }
      SortedMembersMean(tail, ms[0]);
    }
  }

  lemma {:induction false} SortKeysMembersKeys(ms: seq<Member>)
    requires UniqueKeys(ms)
    ensures UniqueKeys(SortKeysMembers(ms))
    ensures forall m | m in SortKeysMembers(ms) :: m.key != PROTO && exists x ::
              x in ms && x.key == m.key && m.value == SortKeys(x.value)
  {
    if ms != [] {
      SortKeysMembersKeys(ms[1..]);
      assert ms[0] in ms;
    }
  }

  lemma {:induction false} SortKeysNormal(v: Json)
    requires WellFormed(v)
    ensures Normal(SortKeys(v)) && WellFormed(SortKeys(v)) && NoProto(SortKeys(v))
    decreases v, 1
  {
    match v
    case JArray(items) => SortKeysItemsNormal(items);
    case JObject(ms) => SortKeysObjectNormal(ms);
    case _ =>
  }

  lemma {:induction false} SortKeysItemsNormal(items: seq<Json>)
    requires forall x | x in items :: WellFormed(x)
    ensures forall x | x in SortKeysItems(items) :: Normal(x) && WellFormed(x) && NoProto(x)
    decreases items, 0
  {
    if items != [] {
      SortKeysNormal(items[0]);
      SortKeysItemsNormal(items[1..]);
    }
  }

  lemma {:induction false} SortKeysObjectNormal(ms: seq<Member>)
    requires UniqueKeys(ms) && forall m | m in ms :: WellFormed(m.value)
    ensures var r := SortKeys(JObject(ms)); Normal(r) && WellFormed(r) && NoProto(r)
    decreases ms, 0
  {
    var t := SortKeysMembers(ms);
    var r := Sorting.Sort(MemberLe, t);
    SortKeysMembersKeys(ms);
    MembersOrdered();
    Sorting.SortSorted(MemberLe, t);
    Sorting.SortPermutes(MemberLe, t);
    SortKeepsUnique(t);
    forall m | m in r ensures Normal(m.value) && WellFormed(m.value) && NoProto(m.value) && m.key != PROTO {
      assert m in multiset(r);
      assert m in t;
      var x :| x in ms && x.key == m.key && m.value == SortKeys(x.value);
      SortKeysNormal(x.value);
    }
  }

  lemma SortKeepsUnique(t: seq<Member>)
    requires UniqueKeys(t)
    ensures UniqueKeys(Sorting.Sort(MemberLe, t))
  {
    var r := Sorting.Sort(MemberLe, t);
    Sorting.SortPermutes(MemberLe, t);
    assert Distinct(t);
    DistinctPermutation(t, r);
    forall i, j | 0 <= i < j < |r| ensures r[i].key != r[j].key {
      assert r[i] in multiset(r) && r[j] in multiset(r);
      assert r[i] in t && r[j] in t && r[i] != r[j];
    }
  }

  /** `sortKeys` keeps what the value means, apart from its `__proto__` members. */
  lemma {:induction false} SortKeysMeaning(v: Json)
    requires WellFormed(v)
    ensures MeaningOf(SortKeys(v)) == MeaningOf(DropProto(v))
    decreases v, 1
  {
    match v
    case JArray(items) => SortKeysItemsMeaning(items);
    case JObject(ms) =>
      SortKeysMembersKeys(ms);
      SortKeepsMeaning(SortKeysMembers(ms));
      SortKeysMembersMeaning(ms);
    case _ =>
  }

  lemma {:induction false} SortKeysItemsMeaning(items: seq<Json>)
    requires forall x | x in items :: WellFormed(x)
    ensures MeaningOfItems(SortKeysItems(items)) == MeaningOfItems(DropProtoItems(items))
    decreases items, 0
  {
    if items != [] {
      SortKeysMeaning(items[0]);
      SortKeysItemsMeaning(items[1..]);
      assert SortKeysItems(items)[1..] == SortKeysItems(items[1..]);
      assert DropProtoItems(items)[1..] == DropProtoItems(items[1..]);
    }
  }

  lemma {:induction false} SortKeysMembersMeaning(ms: seq<Member>)
    requires forall m | m in ms :: WellFormed(m.value)
    ensures MeaningOfMembers(SortKeysMembers(ms)) == MeaningOfMembers(DropProtoMembers(ms))
    decreases ms, 0
  {
    if ms != [] {
      SortKeysMembersMeaning(ms[1..]);
      if ms[0].key != PROTO {
        SortKeysMeaning(ms[0].value);
        assert SortKeysMembers(ms)[1..] == SortKeysMembers(ms[1..]);
        assert DropProtoMembers(ms)[1..] == DropProtoMembers(ms[1..]);
      }
    }
  }

  // ----- Main results ---------------------------------------------------------

  /**
   * Canonical form, for every value: two values have the same canonical text exactly when they
   * are equal up to the order of keys at every depth, once `__proto__` members are left out.
   */
  lemma CanonicalTextExact(v: Json, w: Json)
    requires WellFormed(v) && WellFormed(w)
    ensures CanonicalText(v) == CanonicalText(w) <==> MeaningOf(DropProto(v)) == MeaningOf(DropProto(w))
  {
    SortKeysNormal(v);
    SortKeysNormal(w);
    SortKeysMeaning(v);
    SortKeysMeaning(w);
    if CanonicalText(v) == CanonicalText(w) {
      StringifyInjective(SortKeys(v), SortKeys(w));
    }
    if MeaningOf(DropProto(v)) == MeaningOf(DropProto(w)) {
      NormalUnique(SortKeys(v), SortKeys(w));
    }
  }

  lemma {:induction false} DropProtoNothing(v: Json)
    requires NoProto(v)
    ensures DropProto(v) == v
    decreases v, 1
  {
    match v
    case JArray(items) => DropProtoNothingItems(items);
    case JObject(ms) => DropProtoNothingMembers(ms);
    case _ =>
  }

  lemma {:induction false} DropProtoNothingItems(items: seq<Json>)
    requires forall x | x in items :: NoProto(x)
    ensures DropProtoItems(items) == items
    decreases items, 0
  {
    if items != [] {
      DropProtoNothing(items[0]);
      DropProtoNothingItems(items[1..]);
    }
  }

  lemma {:induction false} DropProtoNothingMembers(ms: seq<Member>)
    requires forall m | m in ms :: m.key != PROTO && NoProto(m.value)
    ensures DropProtoMembers(ms) == ms
    decreases ms, 0
  {
    if ms != [] {
      DropProtoNothing(ms[0].value);
      DropProtoNothingMembers(ms[1..]);
    }
  }

  /** Canonical form, for values without `__proto__` members: same text, same value up to key order. */
  lemma CanonicalTextFaithful(v: Json, w: Json)
    requires WellFormed(v) && WellFormed(w) && NoProto(v) && NoProto(w)
    ensures CanonicalText(v) == CanonicalText(w) <==> MeaningOf(v) == MeaningOf(w)
  {
    CanonicalTextExact(v, w);
    DropProtoNothing(v);
    DropProtoNothing(w);
  }

  /** With a `__proto__` member the text does not determine the value. */
  lemma CanonicalTextLosesProto()
    ensures var v := JObject([Member("a", JNull), Member(PROTO, JBool(true))]);
            var w := JObject([Member("a", JNull)]);
            WellFormed(v) && WellFormed(w) && MeaningOf(v) != MeaningOf(w) && CanonicalText(v) == CanonicalText(w)
  {
    var ms := [Member("a", JNull), Member(PROTO, JBool(true))];
    var ns := [Member("a", JNull)];
    assert ms[1..] == [Member(PROTO, JBool(true))] && ns[1..] == [] && ms[1..][1..] == [];
    assert "a" != PROTO by { assert |"a"| != |PROTO|; }
    assert ns[0].key == "a" && MeaningOfMembers(ns[1..]) == map[];
    assert MeaningOfMembers(ns).Keys == {"a"};
    assert ms[1].key == PROTO && PROTO in MeaningOfMembers(ms[1..]) && PROTO in MeaningOfMembers(ms);
    var kept := [Member("a", DropProto(JNull))];
    assert DropProtoMembers(ms[1..]) == [];
    assert ms[0].key == "a" && DropProtoMembers(ms) == kept + DropProtoMembers(ms[1..]);
    assert ns[0].key == "a" && DropProtoMembers(ns) == kept + DropProtoMembers(ns[1..]);
    CanonicalTextExact(JObject(ms), JObject(ns));
  }

  /** Sorting an already sorted value changes nothing. */
  lemma SortKeysIdempotent(v: Json)
    requires WellFormed(v)
    ensures SortKeys(SortKeys(v)) == SortKeys(v)
  {
    var s := SortKeys(v);
    SortKeysNormal(v);
    SortKeysNormal(s);
    SortKeysMeaning(s);
    DropProtoNothing(s);
    NormalUnique(SortKeys(s), s);
  }

  lemma {:induction false} WithoutKeys(ms: seq<Member>, key: string)
    requires UniqueKeys(ms)
    ensures UniqueKeys(Without(ms, key))
    ensures forall m :: m in Without(ms, key) <==> m in ms && m.key != key
  {
    if ms != [] {
      WithoutKeys(ms[1..], key);
    }
  }

  /**
   * `canonicalize` sees exactly the document without its signature: two documents have the same
   * canonical text if and only if all their other members agree up to key order.
   */
  lemma CanonicalizeExact(p: seq<Member>, q: seq<Member>)
    requires WellFormed(JObject(p)) && WellFormed(JObject(q)) && NoProto(JObject(p)) && NoProto(JObject(q))
    ensures Canonicalize(p) == Canonicalize(q) <==>
            MeaningOfMembers(p) - {"signature"} == MeaningOfMembers(q) - {"signature"}
  {
    WithoutKeys(p, "signature");
    WithoutKeys(q, "signature");
    WithoutMeaning(p, "signature");
    WithoutMeaning(q, "signature");
    CanonicalTextFaithful(JObject(Without(p, "signature")), JObject(Without(q, "signature")));
  }

  lemma {:induction false} WithoutMeaning(ms: seq<Member>, key: string)
    requires UniqueKeys(ms)
    ensures MeaningOfMembers(Without(ms, key)) == MeaningOfMembers(ms) - {key}
  {
    if ms != [] {
      WithoutMeaning(ms[1..], key);
      if ms[0].key != key {
        assert Without(ms, key)[1..] == Without(ms[1..], key);
      } else {
        MeaningHeadRemoved(ms);
        MeaningKeys(ms[1..]);
      }
    }
  }

  // ----- The loop that fills the sorted object ----------------------------------

  function KeysOf(ms: seq<Member>): seq<string> {
    Map((m: Member) => m.key, ms)
  }

  function Get(ms: seq<Member>, key: string): Json
    requires key in KeysOf(ms)
  {
    if ms[0].key == key then ms[0].value else Get(ms[1..], key)
  }

  /** `obj[key] = value`: array indices stand first and in numeric order, other new keys go last. */
  function Assign(obj: seq<Member>, key: string, value: Json): seq<Member> {
    if key == PROTO then obj
    else if obj == [] then [Member(key, value)]
    else if obj[0].key == key then [Member(key, value)] + obj[1..]
    else if IsArrayIndex(key) && (!IsArrayIndex(obj[0].key) || NatValue(key) < NatValue(obj[0].key)) then
      [Member(key, value)] + obj
    else [obj[0]] + Assign(obj[1..], key, value)
  }

  lemma {:induction false} TextOrdered()
    ensures Sorting.TotalPreorder(TextLe)
  {
    forall x: string, y: string ensures TextLe(x, y) || TextLe(y, x) {
      TextLeTotal(x, y);
    }
    forall x: string, y: string, z: string | TextLe(x, y) && TextLe(y, z) ensures TextLe(x, z) {
      TextLeTransitive(x, y, z);
    }
  }

  ghost predicate Ordered(ms: seq<Member>) {
    UniqueKeys(ms) && Sorting.SortedBy(MemberLe, ms)
  }

  /** Assigning keys in text order keeps the object in enumeration order. */
  lemma {:induction false} AssignInOrder(obj: seq<Member>, key: string, value: Json)
    requires key != PROTO && Ordered(obj)
    requires forall m | m in obj :: m.key != key && TextLe(m.key, key)
    ensures Ordered(Assign(obj, key, value))
    ensures forall m :: m in Assign(obj, key, value) <==> m in obj || m == Member(key, value)
  {
    var added := Member(key, value);
    if obj == [] {
    } else if IsArrayIndex(key) && (!IsArrayIndex(obj[0].key) || NatValue(key) < NatValue(obj[0].key)) {
      MembersOrdered();
      assert MemberLe(added, obj[0]);
      forall m | m in obj ensures MemberLe(added, m) {
      }
      OrderedCons(added, obj);
    } else {
      assert obj[0] in obj && MemberLe(obj[0], added);
      OrderedTail(obj);
      AssignInOrder(obj[1..], key, value);
      OrderedCons(obj[0], Assign(obj[1..], key, value));
    }
  }

  lemma OrderedCons(m: Member, ms: seq<Member>)
    requires Ordered(ms) && forall x | x in ms :: x.key != m.key && MemberLe(m, x)
    ensures Ordered([m] + ms)
  {
  }

  lemma OrderedTail(ms: seq<Member>)
    requires ms != [] && Ordered(ms)
    ensures Ordered(ms[1..]) && forall x | x in ms[1..] :: x.key != ms[0].key && MemberLe(ms[0], x)
  {
  }

  lemma {:induction false} GetIsValue(ms: seq<Member>, key: string)
    requires UniqueKeys(ms) && key in KeysOf(ms)
    ensures Member(key, Get(ms, key)) in ms
  {
    if ms[0].key != key {
      assert key in KeysOf(ms[1..]);
      GetIsValue(ms[1..], key);
    }
  }

  /** The loop invariant: `sorted` holds the keys done so far, in order, with sorted values. */
  ghost predicate Filled(sorted: seq<Member>, done: seq<string>, ms: seq<Member>) {
    && Ordered(sorted)
    && (forall k | k in done && k != PROTO :: exists m :: m in sorted && m.key == k)
    && (forall m | m in sorted :: m.key != PROTO && m.key in done)
    && (forall m | m in sorted :: exists x :: x in ms && x.key == m.key && m.value == SortKeys(x.value))
  }

  lemma {:induction false} FilledStep(sorted: seq<Member>, done: seq<string>, ms: seq<Member>, key: string)
    requires UniqueKeys(ms) && Filled(sorted, done, ms)
    requires key in KeysOf(ms) && key !in done && forall k | k in done :: TextLe(k, key)
    ensures Filled(Assign(sorted, key, SortKeys(Get(ms, key))), done + [key], ms)
  {
    if key != PROTO {
      var value := SortKeys(Get(ms, key));
      var r := Assign(sorted, key, value);
      AssignInOrder(sorted, key, value);
      GetIsValue(ms, key);
      assert Member(key, value) in r;
      forall k | k in done + [key] && k != PROTO ensures exists m :: m in r && m.key == k {
        if k != key {
          var m :| m in sorted && m.key == k;
          assert m in r;
        }
      }
    }
  }

  lemma {:induction false} FilledIsSorted(sorted: seq<Member>, done: seq<string>, ms: seq<Member>)
    requires WellFormed(JObject(ms)) && Filled(sorted, done, ms)
    requires forall m | m in ms :: m.key in done
    ensures JObject(sorted) == SortKeys(JObject(ms))
  {
    var t := SortKeysMembers(ms);
    SortKeysObjectNormal(ms);
    SortKeysMembersKeys(ms);
    SortKeepsMeaning(t);
    MeaningKeys(sorted);
    MeaningKeys(t);
    forall m | m in sorted ensures Normal(m.value) && m in t {
      var x :| x in ms && x.key == m.key && m.value == SortKeys(x.value);
      SortKeysNormal(x.value);
      SortedMemberPresent(ms, x);
    }
    forall m | m in t ensures m in sorted {
      var x :| x in ms && x.key == m.key && m.value == SortKeys(x.value);
      assert x.key in done;
      var n :| n in sorted && n.key == x.key;
    }
    assert MeaningOfMembers(sorted) == MeaningOfMembers(t);
    NormalMembersUnique(sorted, Sorting.Sort(MemberLe, t));
  }

  lemma {:induction false} SortedMemberPresent(ms: seq<Member>, x: Member)
    requires x in ms && x.key != PROTO
    ensures Member(x.key, SortKeys(x.value)) in SortKeysMembers(ms)
  {
    if ms[0] != x {
      SortedMemberPresent(ms[1..], x);
    }
  }

  /** `sortKeys(obj)` as it runs: each object is rebuilt key by key, in the order of its sorted key list. */
  method SortKeysLoop(v: Json) returns (r: Json)
    requires WellFormed(v)
    ensures r == SortKeys(v)
    decreases v, 1
  {
    match v
    case JArray(items) =>
      var mapped := SortItemsLoop(items);
      r := JArray(mapped);
    case JObject(ms) =>
      var sorted := FillSorted(ms);
      r := JObject(sorted);
    case _ => r := v;
  }

  /** `obj.map(sortKeys)`. */
  method SortItemsLoop(items: seq<Json>) returns (mapped: seq<Json>)
    requires forall x | x in items :: WellFormed(x)
    ensures mapped == SortKeysItems(items)
    decreases items, 0
  {
    mapped := [];
    for i := 0 to |items|
      invariant mapped + SortKeysItems(items[i..]) == SortKeysItems(items)
    {
      var item := SortKeysLoop(items[i]);
      assert items[i..][1..] == items[i + 1..];
      Associate(mapped, [item], SortKeysItems(items[i + 1..]));
      mapped := mapped + [item];
    }
  }

  /** The loop over the sorted key list, each value going to its key in the new object. */
  method FillSorted(ms: seq<Member>) returns (sorted: seq<Member>)
    requires WellFormed(JObject(ms))
    ensures JObject(sorted) == SortKeys(JObject(ms))
    decreases ms, 0
  {
    var keys := Sorting.Sort(TextLe, KeysOf(ms));
    KeyListSorted(ms);
    sorted := [];
    for i := 0 to |keys|
      invariant Filled(sorted, keys[..i], ms)
    {
      KeyHasValue(ms, keys, i);
      var value := SortKeysLoop(Get(ms, keys[i]));
      FilledNext(sorted, keys, i, ms);
      sorted := Assign(sorted, keys[i], value);
    }
    assert keys[..|keys|] == keys;
    FilledIsSorted(sorted, keys, ms);
  }

  /** Every key of the object once, in text order. */
  ghost predicate KeyList(keys: seq<string>, ms: seq<Member>) {
    && Distinct(keys)
    && Sorting.SortedBy(TextLe, keys)
    && (forall k :: k in keys <==> k in KeysOf(ms))
  }

  lemma KeyHasValue(ms: seq<Member>, keys: seq<string>, i: nat)
    requires WellFormed(JObject(ms)) && KeyList(keys, ms) && i < |keys|
    ensures keys[i] in KeysOf(ms) && Member(keys[i], Get(ms, keys[i])) in ms
  {
    assert keys[i] in keys;
    GetIsValue(ms, keys[i]);
  }

  lemma FilledNext(sorted: seq<Member>, keys: seq<string>, i: nat, ms: seq<Member>)
    requires UniqueKeys(ms) && KeyList(keys, ms) && i < |keys| && keys[i] in KeysOf(ms)
    requires Filled(sorted, keys[..i], ms)
    ensures Filled(Assign(sorted, keys[i], SortKeys(Get(ms, keys[i]))), keys[..i + 1], ms)
  {
    forall k | k in keys[..i] ensures TextLe(k, keys[i]) && k != keys[i] {
      var j :| 0 <= j < i && keys[j] == k;
    }
    FilledStep(sorted, keys[..i], ms, keys[i]);
    assert keys[..i + 1] == keys[..i] + [keys[i]];
  }

  lemma KeyListSorted(ms: seq<Member>)
    requires UniqueKeys(ms)
    ensures var keys := Sorting.Sort(TextLe, KeysOf(ms));
            KeyList(keys, ms) && forall m | m in ms :: m.key in keys
  {
    var keys := Sorting.Sort(TextLe, KeysOf(ms));
    TextOrdered();
    Sorting.SortPermutes(TextLe, KeysOf(ms));
    Sorting.SortSorted(TextLe, KeysOf(ms));
    DistinctPermutation(KeysOf(ms), keys);
    forall k ensures k in keys <==> k in KeysOf(ms) {
      assert k in multiset(keys) <==> k in multiset(KeysOf(ms));
    }
    forall m | m in ms ensures m.key in keys {
      var i :| 0 <= i < |ms| && ms[i] == m;
      assert KeysOf(ms)[i] == m.key;
    }
  }
}
