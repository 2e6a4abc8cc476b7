/**
 Payloads of events as JSON values. A payload is read into dictionaries that remember the order of their
 members, while its digest is taken of a text with sorted members: the canonical form forgets the order.
 */
module Payloads {
  import opened Prelude

  /** A value as Python holds it; a floating-point number is its shortest decimal text. */
  datatype Value =
    | Null | Boolean(flag: bool) | Integer(number: int) | Decimal(digits: string) | Text(text: string)
    | Items(items: seq<Value>) | Fields(fields: seq<Field>)

  datatype Field = Field(name: string, value: Value)

  type Payload = map<string, Value>

  /** A value as its sorted JSON text determines it. */
  datatype Canon =
    | CanonNull | CanonBoolean(flag: bool) | CanonInteger(number: int) | CanonDecimal(digits: string)
    | CanonText(text: string) | CanonItems(items: seq<Canon>) | CanonFields(fields: map<string, Canon>)

  function Canonical(v: Value): Canon
    decreases v
  {
    match v
    case Null => CanonNull
    case Boolean(b) => CanonBoolean(b)
    case Integer(n) => CanonInteger(n)
    case Decimal(d) => CanonDecimal(d)
    case Text(t) => CanonText(t)
    case Items(items) => CanonItems(CanonicalItems(items))
    case Fields(fields) => CanonFields(CanonicalFields(fields))
  }

  function CanonicalItems(items: seq<Value>): (r: seq<Canon>)
    ensures |r| == |items| && forall i | 0 <= i < |items| :: r[i] == Canonical(items[i])
    decreases items
  {
    if items == [] then [] else [Canonical(items[0])] + CanonicalItems(items[1..])
  }

  function CanonicalFields(fields: seq<Field>): (r: map<string, Canon>)
    ensures r == map[] <==> fields == []
    decreases fields
  {
    if fields == [] then map[]
    else
      var r := CanonicalFields(fields[1..])[fields[0].name := Canonical(fields[0].value)];
      assert fields[0].name in r;
      r
  }

  function CanonicalPayload(p: Payload): map<string, Canon> {
    map k | k in p :: Canonical(p[k])
  }

  /** Every dictionary lists each of its names once. */
  predicate Real(v: Value)
    decreases v
  {
    match v
    case Items(items) => forall i | 0 <= i < |items| :: Real(items[i])
    case Fields(fields) => NamesDiffer(fields) && forall i | 0 <= i < |fields| :: Real(fields[i].value)
    case _ => true
  }

  predicate NamesDiffer(fields: seq<Field>) {
    forall i, j | 0 <= i < j < |fields| :: fields[i].name != fields[j].name
  }

  /** No dictionary has two members, so that there is no order to forget. */
  predicate Orderless(v: Value)
    decreases v
  {
    match v
    case Items(items) => forall i | 0 <= i < |items| :: Orderless(items[i])
    case Fields(fields) => |fields| <= 1 && forall i | 0 <= i < |fields| :: Orderless(fields[i].value)
    case _ => true
  }

  predicate Truthy(v: Value) {
    match v
    case Null => false
    case Boolean(b) => b
    case Integer(n) => n != 0
    case Decimal(d) => d != "0.0" && d != "-0.0"
    case Text(t) => t != ""
    case Items(items) => items != []
    case Fields(fields) => fields != []
  }

  lemma TruthyCanonical(v: Value, w: Value)
    requires Canonical(v) == Canonical(w)
    ensures Truthy(v) == Truthy(w) && v.Text? == w.Text? && (v.Text? ==> v == w)
  {
  }

  lemma {:induction false} FieldsCanonical(fields: seq<Field>, k: string)
    requires NamesDiffer(fields)
    ensures k in CanonicalFields(fields) <==> exists i :: 0 <= i < |fields| && fields[i].name == k
    ensures forall i | 0 <= i < |fields| ::
      fields[i].name in CanonicalFields(fields) && CanonicalFields(fields)[fields[i].name] == Canonical(fields[i].value)
  {
    if fields != [] {
      FieldsCanonical(fields[1..], k);
      if k in CanonicalFields(fields[1..]) {
        var i :| 0 <= i < |fields| - 1 && fields[1..][i].name == k;
        assert fields[i + 1].name == k;
      }
      if i :| 0 <= i < |fields| && fields[i].name == k {
        assert i > 0 ==> fields[1..][i - 1].name == k;
      }
      forall i | 0 <= i < |fields|
        ensures fields[i].name in CanonicalFields(fields)
        ensures CanonicalFields(fields)[fields[i].name] == Canonical(fields[i].value)
      {
        assert i > 0 ==> fields[1..][i - 1] == fields[i];
      }
    }
  }

  lemma TwoNames(fields: seq<Field>)
    requires NamesDiffer(fields) && |fields| > 1
    ensures fields[0].name != fields[1].name
  {
  }

  /** An orderless value is determined by its canonical form. */
  lemma {:induction false} OrderlessDetermined(v: Value, w: Value)
    requires Real(v) && Real(w) && Orderless(v) && Canonical(v) == Canonical(w)
    ensures v == w
    decreases v
  {
    match v
    case Items(items) =>
      forall i | 0 <= i < |items| ensures items[i] == w.items[i] {
        assert CanonicalItems(items)[i] == CanonicalItems(w.items)[i];
        OrderlessDetermined(items[i], w.items[i]);
      }
      assert items == w.items;
    case Fields(fields) =>
      if fields != [] {
        var k := fields[0].name;
        FieldsCanonical(fields, k);
        forall j | 0 <= j < |w.fields| ensures w.fields[j].name == k {
          FieldsCanonical(w.fields, w.fields[j].name);
          FieldsCanonical(fields, w.fields[j].name);
        }
        assert w.fields != [];
        if |w.fields| > 1 { TwoNames(w.fields); }
        OrderlessDetermined(fields[0].value, w.fields[0].value);
        assert fields == w.fields;
      }
    case _ =>
  }

  lemma FieldsSwapped(fields: seq<Field>) returns (w: seq<Field>)
    requires |fields| >= 2 && Real(Fields(fields))
    ensures Real(Fields(w)) && CanonicalFields(w) == CanonicalFields(fields) && w != fields
  {
    var a, b, rest := fields[0], fields[1], fields[2..];
    assert fields == [a, b] + rest;
    w := [b, a] + rest;
    assert w[0] != fields[0];
    assert forall i | 2 <= i < |fields| :: w[i] == fields[i];
  }

  lemma ItemsReordered(items: seq<Value>, i: nat, u: Value)
    requires i < |items| && (forall j | 0 <= j < |items| :: Real(items[j])) && Real(u)
    requires Canonical(u) == Canonical(items[i]) && u != items[i]
    ensures var w := Items(items[i := u]); Real(w) && Canonical(w) == Canonical(Items(items)) && w != Items(items)
  {
    assert Items(items[i := u]).items[i] != items[i];
  }

  lemma MemberReordered(f: Field, u: Value)
    requires Real(u) && Canonical(u) == Canonical(f.value) && u != f.value
    ensures var w := Fields([Field(f.name, u)]);
      Real(w) && Canonical(w) == Canonical(Fields([f])) && w != Fields([f])
  {
    assert [f][1..] == [] && [Field(f.name, u)][1..] == [];
    assert [Field(f.name, u)][0] != [f][0];
  }

  /** Any other value can be written down in another order. */
  lemma {:induction false} Reorder(v: Value) returns (w: Value)
    requires Real(v) && !Orderless(v)
    ensures Real(w) && Canonical(w) == Canonical(v) && w != v
    decreases v
  {
    hide Canonical;
    match v
    case Items(items) =>
      var i :| 0 <= i < |items| && !Orderless(items[i]);
      var u := Reorder(items[i]);
      ItemsReordered(items, i, u);
      w := Items(items[i := u]);
    case Fields(fields) =>
      if |fields| >= 2 {
        var swapped := FieldsSwapped(fields);
        w := Fields(swapped);
        FieldsAlike(swapped, fields);
      } else {
        var u := Reorder(fields[0].value);
        assert fields == [fields[0]];
        MemberReordered(fields[0], u);
        w := Fields([Field(fields[0].name, u)]);
      }
  }

  lemma FieldsAlike(a: seq<Field>, b: seq<Field>)
    requires CanonicalFields(a) == CanonicalFields(b)
    ensures Canonical(Fields(a)) == Canonical(Fields(b))
  {
  }
}
