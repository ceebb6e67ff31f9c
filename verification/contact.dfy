/** The `Contact` record: its defaults, its six setters, the JSON object it is
    written as (fixed key order, nulls kept) and the binding that builds one
    from a JSON object by starting from the default record and applying setters. */
module Contacts {
  import opened Wrappers

  /** Java `long`, the type of the boxed `Long id`. */
  newtype Int64 = x: int | -0x8000_0000_0000_0000 <= x <= 0x7FFF_FFFF_FFFF_FFFF

  /** An `OffsetDateTime`, kept opaque: only its canonical text is carried. */
  datatype Instant = Instant(text: string)

  /** Every field is nullable in the source; `None` is Java's null. */
  datatype Contact = Contact(
    id: Option<Int64>,
    name: Option<string>,
    email: Option<string>,
    source: Option<string>,
    createdAt: Option<Instant>,
    updatedAt: Option<Instant>)

  const DefaultSource: string := "KENECT_LABS"

  /** The six properties of a contact, in declaration order. */
  datatype Field = Id | Name | Email | Source | CreatedAt | UpdatedAt

  /** The order in which the properties are written out. */
  const KeyOrder: seq<Field> := [Id, Name, Email, Source, CreatedAt, UpdatedAt]

  /** The JSON key each property is written under and read from. */
  function Key(f: Field): string
  {
    match f
    case Id => "id"
    case Name => "name"
    case Email => "email"
    case Source => "source"
    case CreatedAt => "created_at"
    case UpdatedAt => "updated_at"
  }

  /** The written order, spelled out as keys. */
  lemma KeyOrderSpelled()
    ensures |KeyOrder| == 6
    ensures Key(KeyOrder[0]) == "id" && Key(KeyOrder[1]) == "name" && Key(KeyOrder[2]) == "email"
    ensures Key(KeyOrder[3]) == "source" && Key(KeyOrder[4]) == "created_at" && Key(KeyOrder[5]) == "updated_at"
  {
  }

  /** The scalar JSON values a contact's properties take. */
  datatype Json = JNull | JNumber(n: int) | JString(s: string)

  function StringValue(o: Option<string>): Json
  {
    match o
    case None => JNull
    case Some(s) => JString(s)
  }

  function InstantValue(o: Option<Instant>): Json
  {
    match o
    case None => JNull
    case Some(t) => JString(t.text)
  }

  /** The value a contact holds for property `f`, as JSON (the getters). */
  function Get(c: Contact, f: Field): (v: Json)
    ensures v == JNull <==> !Present(c, f)
    ensures Fits(f, v)
  {
    match f
    case Id => (match c.id case None => JNull case Some(n) => JNumber(n as int))
    case Name => StringValue(c.name)
    case Email => StringValue(c.email)
    case Source => StringValue(c.source)
    case CreatedAt => InstantValue(c.createdAt)
    case UpdatedAt => InstantValue(c.updatedAt)
  }

  /** Whether property `f` is non-null. */
  predicate Present(c: Contact, f: Field)
  {
    match f
    case Id => c.id.Some?
    case Name => c.name.Some?
    case Email => c.email.Some?
    case Source => c.source.Some?
    case CreatedAt => c.createdAt.Some?
    case UpdatedAt => c.updatedAt.Some?
  }

  /** The observable view is faithful: two contacts that agree on every
      property are the same contact, so a statement about `Get` is a
      statement about the record. */
  lemma SameViewSameContact(a: Contact, b: Contact)
    requires forall f :: Get(a, f) == Get(b, f)
    ensures a == b
  {
    assert Get(a, Id) == Get(b, Id);
    assert Get(a, Name) == Get(b, Name);
    assert Get(a, Email) == Get(b, Email);
    assert Get(a, Source) == Get(b, Source);
    assert Get(a, CreatedAt) == Get(b, CreatedAt);
    assert Get(a, UpdatedAt) == Get(b, UpdatedAt);
  }

  /** `new Contact()`. */
  function NewContact(): (c: Contact)
    ensures Get(c, Source) == JString(DefaultSource)
    ensures forall f :: f != Source ==> Get(c, f) == JNull && !Present(c, f)
  {
    Contact(None, None, None, Some(DefaultSource), None, None)
  }

  // The setters. Each one fixes the value its getter returns afterwards and
  // leaves every other property as it was.

  function SetId(c: Contact, v: Option<Int64>): (r: Contact)
    ensures r.id == v
    ensures forall f :: f != Id ==> Get(r, f) == Get(c, f)
  {
    c.(id := v)
  }

  function SetName(c: Contact, v: Option<string>): (r: Contact)
    ensures r.name == v
    ensures forall f :: f != Name ==> Get(r, f) == Get(c, f)
  {
    c.(name := v)
  }

  function SetEmail(c: Contact, v: Option<string>): (r: Contact)
    ensures r.email == v
    ensures forall f :: f != Email ==> Get(r, f) == Get(c, f)
  {
    c.(email := v)
  }

  function SetSource(c: Contact, v: Option<string>): (r: Contact)
    ensures r.source == v
    ensures forall f :: f != Source ==> Get(r, f) == Get(c, f)
  {
    c.(source := v)
  }

  function SetCreatedAt(c: Contact, v: Option<Instant>): (r: Contact)
    ensures r.createdAt == v
    ensures forall f :: f != CreatedAt ==> Get(r, f) == Get(c, f)
  {
    c.(createdAt := v)
  }

  function SetUpdatedAt(c: Contact, v: Option<Instant>): (r: Contact)
    ensures r.updatedAt == v
    ensures forall f :: f != UpdatedAt ==> Get(r, f) == Get(c, f)
  {
    c.(updatedAt := v)
  }

  /** Setting a property to the value it already has changes nothing, and a
      second setter call on the same property overrides the first. */
  lemma SetterLaws(c: Contact, id: Option<Int64>, id': Option<Int64>, name: Option<string>, name': Option<string>,
                   email: Option<string>, email': Option<string>, source: Option<string>, source': Option<string>,
                   createdAt: Option<Instant>, createdAt': Option<Instant>,
                   updatedAt: Option<Instant>, updatedAt': Option<Instant>)
    ensures SetId(c, c.id) == c && SetName(c, c.name) == c && SetEmail(c, c.email) == c
    ensures SetSource(c, c.source) == c && SetCreatedAt(c, c.createdAt) == c && SetUpdatedAt(c, c.updatedAt) == c
    ensures SetId(SetId(c, id), id') == SetId(c, id')
    ensures SetName(SetName(c, name), name') == SetName(c, name')
    ensures SetEmail(SetEmail(c, email), email') == SetEmail(c, email')
    ensures SetSource(SetSource(c, source), source') == SetSource(c, source')
    ensures SetCreatedAt(SetCreatedAt(c, createdAt), createdAt') == SetCreatedAt(c, createdAt')
    ensures SetUpdatedAt(SetUpdatedAt(c, updatedAt), updatedAt') == SetUpdatedAt(c, updatedAt')
  {
  }

  // ---------------------------------------------------------------------
  // Serialization: every property, in KeyOrder, including the null ones.

  /** The JSON object a contact is written as, as its ordered members. */
  function Serialize(c: Contact): (members: seq<(string, Json)>)
    ensures |members| == |KeyOrder|
    ensures forall i :: 0 <= i < |members| ==> members[i].0 == Key(KeyOrder[i])
    ensures forall i :: 0 <= i < |members| ==> members[i].1 == Get(c, KeyOrder[i])
  {
    [Member(c, Id), Member(c, Name), Member(c, Email), Member(c, Source), Member(c, CreatedAt), Member(c, UpdatedAt)]
  }

  /** The key and value property `f` is written as. */
  function Member(c: Contact, f: Field): (string, Json)
  {
    (Key(f), Get(c, f))
  }

  // ---------------------------------------------------------------------
  // Binding: a JSON object becomes a contact by starting from `new Contact()`
  // and calling the setter of every known key, in the order the keys appear.

  datatype BindError = WrongType(key: string, value: Json)

  /** The property a key belongs to; unknown keys have none. */
  function FieldOfKey(k: string): (f: Option<Field>)
    ensures f.Some? ==> Key(f.value) == k
    ensures f.None? ==> forall g :: Key(g) != k
  {
    if k == "id" then Some(Id)
    else if k == "name" then Some(Name)
    else if k == "email" then Some(Email)
    else if k == "source" then Some(Source)
    else if k == "created_at" then Some(CreatedAt)
    else if k == "updated_at" then Some(UpdatedAt)
    else None
  }

  /** Whether `v` is a value property `f` can hold. */
  predicate Fits(f: Field, v: Json)
  {
    match v
    case JNull => true
    case JNumber(n) => f == Id && -0x8000_0000_0000_0000 <= n <= 0x7FFF_FFFF_FFFF_FFFF
    case JString(_) => f != Id
  }

  /** One setter call driven by a JSON value. */
  function Assign(c: Contact, f: Field, v: Json): (r: Result<Contact, BindError>)
    ensures r.Success? <==> Fits(f, v)
    ensures r.Success? ==> Get(r.value, f) == v
    ensures r.Success? ==> forall g :: g != f ==> Get(r.value, g) == Get(c, g)
  {
    match f
    case Id =>
      (match v
       case JNull => Success(SetId(c, None))
       case JNumber(n) =>
         if -0x8000_0000_0000_0000 <= n <= 0x7FFF_FFFF_FFFF_FFFF then Success(SetId(c, Some(n as Int64)))
         else Failure(WrongType(Key(f), v))
       case JString(_) => Failure(WrongType(Key(f), v)))
    case _ =>
      match v
      case JNull => Success(SetText(c, f, None))
      case JString(s) => Success(SetText(c, f, Some(s)))
      case JNumber(_) => Failure(WrongType(Key(f), v))
  }

  /** The setter of a text-valued property (every property but `id`). */
  function SetText(c: Contact, f: Field, v: Option<string>): (r: Contact)
    requires f != Id
    ensures Get(r, f) == StringValue(v)
    ensures forall g :: g != f ==> Get(r, g) == Get(c, g)
  {
    match f
    case Name => SetName(c, v)
    case Email => SetEmail(c, v)
    case Source => SetSource(c, v)
    case CreatedAt => SetCreatedAt(c, if v.Some? then Some(Instant(v.value)) else None)
    case UpdatedAt => SetUpdatedAt(c, if v.Some? then Some(Instant(v.value)) else None)
  }

  // The setter laws again, for the setter call the JSON reader makes: over
  // every property at once and over JSON values, through `Assign`.

  /** A property set to its own value is unchanged. */
  lemma AssignOwnValueIdentity(c: Contact, f: Field)
    ensures Assign(c, f, Get(c, f)) == Success(c)
  {
  }

  /** A second setter call on a property overrides the first. */
  lemma AssignOverrides(c: Contact, f: Field, v: Json, w: Json)
    requires Fits(f, v) && Fits(f, w)
    ensures Assign(Assign(c, f, v).value, f, w) == Assign(c, f, w)
  {
  }

  /** Every member with a known key carries a value its property can hold. */
  predicate AllFit(members: seq<(string, Json)>)
  {
    forall i :: 0 <= i < |members| && FieldOfKey(members[i].0).Some? ==> Fits(FieldOfKey(members[i].0).value, members[i].1)
  }

  /** Binding onto `c`: the setter of every known key, in member order.
      It fails exactly when some known key carries a value of the wrong
      type, and the error names such a member. */
  function BindFrom(c: Contact, members: seq<(string, Json)>): (r: Result<Contact, BindError>)
    ensures r.Success? <==> AllFit(members)
    ensures r.Failure? ==> exists i :: 0 <= i < |members| && members[i] == (r.error.key, r.error.value)
                                      && FieldOfKey(r.error.key).Some? && !Fits(FieldOfKey(r.error.key).value, r.error.value)
    decreases |members|
  {
    if members == [] then Success(c)
    else
      match FieldOfKey(members[0].0)
      case None => BindFrom(c, members[1..])
      case Some(f) =>
        match Assign(c, f, members[0].1)
        case Failure(e) => Failure(e)
        case Success(c') => BindFrom(c', members[1..])
  }

  /** Reads a contact from the members of a JSON object: it succeeds exactly
      when every known key carries a value of its property's type. */
  function Bind(members: seq<(string, Json)>): (r: Result<Contact, BindError>)
    ensures r.Success? <==> AllFit(members)
  {
    BindFrom(NewContact(), members)
  }

  /** Binding keeps a property untouched unless its key occurs. */
  lemma {:induction false} BindFromKeepsAbsent(c: Contact, members: seq<(string, Json)>, f: Field)
    requires forall i :: 0 <= i < |members| ==> members[i].0 != Key(f)
    requires BindFrom(c, members).Success?
    ensures Get(BindFrom(c, members).value, f) == Get(c, f)
    decreases |members|
  {
    if members != [] {
      var rest := members[1..];
      assert forall i :: 0 <= i < |rest| ==> rest[i].0 != Key(f) by {
        forall i | 0 <= i < |rest| ensures rest[i].0 != Key(f) {
          assert rest[i] == members[i + 1];
        }
      }
      match FieldOfKey(members[0].0)
      case None =>
        BindFromKeepsAbsent(c, rest, f);
      case Some(g) =>
        var c' := Assign(c, g, members[0].1).value;
        BindFromKeepsAbsent(c', rest, f);
    }
  }

  /** A known key that occurs sets its property to the value of its last
      occurrence: later setter calls override earlier ones. */
  lemma {:induction false} BindFromLastWins(c: Contact, members: seq<(string, Json)>, i: nat)
    requires i < |members| && FieldOfKey(members[i].0).Some?
    requires forall j :: i < j < |members| ==> members[j].0 != members[i].0
    requires BindFrom(c, members).Success?
    ensures Get(BindFrom(c, members).value, FieldOfKey(members[i].0).value) == members[i].1
    decreases |members|
  {
    var f := FieldOfKey(members[i].0).value;
    var rest := members[1..];
    match FieldOfKey(members[0].0)
    case None =>
      assert rest[i - 1] == members[i];
      assert forall j :: i - 1 < j < |rest| ==> rest[j].0 != rest[i - 1].0 by {
        forall j | i - 1 < j < |rest| ensures rest[j].0 != rest[i - 1].0 {
          assert rest[j] == members[j + 1];
        }
      }
      BindFromLastWins(c, rest, i - 1);
    case Some(g) =>
      var c' := Assign(c, g, members[0].1).value;
      if i == 0 {
        assert forall j :: 0 <= j < |rest| ==> rest[j].0 != Key(f) by {
          forall j | 0 <= j < |rest| ensures rest[j].0 != Key(f) {
            assert rest[j] == members[j + 1];
          }
        }
        BindFromKeepsAbsent(c', rest, f);
      } else {
        assert rest[i - 1] == members[i];
        assert forall j :: i - 1 < j < |rest| ==> rest[j].0 != rest[i - 1].0 by {
          forall j | i - 1 < j < |rest| ensures rest[j].0 != rest[i - 1].0 {
            assert rest[j] == members[j + 1];
          }
        }
        BindFromLastWins(c', rest, i - 1);
      }
  }

  /** A contact whose JSON lacks a "source" key gets the default source. */
  lemma MissingSourceDefaults(members: seq<(string, Json)>)
    requires forall i :: 0 <= i < |members| ==> members[i].0 != "source"
    requires Bind(members).Success?
    ensures Bind(members).value.source == Some(DefaultSource)
  {
    BindFromKeepsAbsent(NewContact(), members, Source);
  }

  /** ... and is written back with `"source": "KENECT_LABS"`. */
  lemma MissingSourceWritten(members: seq<(string, Json)>)
    requires forall i :: 0 <= i < |members| ==> members[i].0 != "source"
    requires Bind(members).Success?
    ensures Serialize(Bind(members).value)[3] == ("source", JString(DefaultSource))
  {
    MissingSourceDefaults(members);
  }

  /** Contact `c` after the setter of `f` is called with `d`'s value. */
  function CopyField(c: Contact, d: Contact, f: Field): Contact
  {
    match f
    case Id => SetId(c, d.id)
    case Name => SetName(c, d.name)
    case Email => SetEmail(c, d.email)
    case Source => SetSource(c, d.source)
    case CreatedAt => SetCreatedAt(c, d.createdAt)
    case UpdatedAt => SetUpdatedAt(c, d.updatedAt)
  }

  /** Setter calls on two different properties commute. */
  lemma SettersCommute(c: Contact, f: Field, v: Json, g: Field, w: Json)
    requires f != g && Fits(f, v) && Fits(g, w)
    ensures Assign(Assign(c, f, v).value, g, w) == Assign(Assign(c, g, w).value, f, v)
  {
  }

  /** Binding a property's own serialized value restores that property. */
  lemma AssignOwnValue(c: Contact, d: Contact, f: Field)
    ensures Assign(c, f, Get(d, f)) == Success(CopyField(c, d, f))
  {
  }

  /** Binding the member at position `i`, when it holds property `f` of `c`,
      copies that property and moves on to the next member. */
  lemma BindMember(d: Contact, m: seq<(string, Json)>, i: nat, c: Contact, f: Field)
    requires i < |m| && m[i] == Member(c, f)
    ensures BindFrom(d, m[i..]) == BindFrom(CopyField(d, c, f), m[i + 1..])
  {
  }

  /** Contact `d` with its identity properties taken from `c`. */
  function CopyIdentity(d: Contact, c: Contact): Contact
  {
    CopyField(CopyField(CopyField(d, c, Id), c, Name), c, Email)
  }

  /** Contact `d` with its provenance properties taken from `c`. */
  function CopyProvenance(d: Contact, c: Contact): Contact
  {
    CopyField(CopyField(CopyField(d, c, Source), c, CreatedAt), c, UpdatedAt)
  }

  lemma BindIdentityMembers(d: Contact, c: Contact)
    ensures BindFrom(d, Serialize(c)) == BindFrom(CopyIdentity(d, c), Serialize(c)[3..])
  {
    var m := Serialize(c);
    assert m[0..] == m;
    BindMember(d, m, 0, c, Id);
    BindMember(CopyField(d, c, Id), m, 1, c, Name);
    BindMember(CopyField(CopyField(d, c, Id), c, Name), m, 2, c, Email);
  }

  lemma BindProvenanceMembers(d: Contact, c: Contact)
    ensures BindFrom(d, Serialize(c)[3..]) == Success(CopyProvenance(d, c))
  {
    var m := Serialize(c);
    BindMember(d, m, 3, c, Source);
    BindMember(CopyField(d, c, Source), m, 4, c, CreatedAt);
    BindMember(CopyField(CopyField(d, c, Source), c, CreatedAt), m, 5, c, UpdatedAt);
    assert m[6..] == [];
  }

  /** Reading back what was written yields the same contact, null
      properties included: nothing is lost between the two. */
  lemma BindSerializeRoundTrip(c: Contact)
    ensures Bind(Serialize(c)) == Success(c)
  {
    BindIdentityMembers(NewContact(), c);
    BindProvenanceMembers(CopyIdentity(NewContact(), c), c);
    assert CopyProvenance(CopyIdentity(NewContact(), c), c) == c;
  }
}
