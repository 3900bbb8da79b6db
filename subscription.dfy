/** A subscription record: who consumes which event types under which consumer group,
    with the record's equality and hash code. */
module Subscriptions {
  import opened Wrappers
  import opened JavaLang
  import opened JavaUtil

  /** A Joda DateTime: an instant and the chronology (calendar and zone) it is read in. Two
      are equal when both agree. */
  datatype DateTime = DateTime(instantMillis: int, chronology: string)

  /** DateTime.hashCode, which is not part of this model: a parameter of the hash. */
  type DateTimeHash = DateTime -> int

  /** The five fields equals and hashCode read; `eventTypes` is the iteration order of the
      stored set, nothing when the field is null. */
  datatype Fields = Fields(
    id: Option<string>,
    owningApplication: Option<string>,
    eventTypes: Option<seq<string>>,
    consumerGroup: string,
    createdAt: DateTime)

  /** AbstractSet.equals(o): `o` is a set holding the same elements. */
  predicate SetEquals(xs: seq<string>, o: Option<seq<string>>) {
    o.Some? && (forall y :: y in xs ==> y in o.value) && (forall y :: y in o.value ==> y in xs)
  }

  /** When the comparison of `a` with `b` returns rather than throwing
      NullPointerException: a null owningApplication or eventTypes is dereferenced only
      when both ids are null and, for eventTypes, the applications are equal. */
  predicate EqualsDefined(a: Fields, b: Fields) {
    a.id.None? && b.id.None? ==>
      a.owningApplication.Some? && (a.owningApplication == b.owningApplication ==> a.eventTypes.Some?)
  }

  /** Subscription.equals after the identity, null and class checks. `?:` binds more
      loosely than `&&`, so the expression reads
      `id != null ? id.equals(that.id) : (that.id == null && ... && createdAt.equals(..))`. */
  function FieldsEqual(a: Fields, b: Fields): (equal: bool)
    requires EqualsDefined(a, b)
  {
    if a.id.Some? then b.id == a.id
    else
      && b.id.None?
      && b.owningApplication == a.owningApplication
      && SetEquals(a.eventTypes.value, b.eventTypes)
      && b.consumerGroup == a.consumerGroup
      && b.createdAt == a.createdAt
  }

  /** With an id set, equality looks at the ids alone, whatever the other fields hold. */
  lemma EqualsByIdAlone(a: Fields, b: Fields)
    requires a.id.Some?
    ensures EqualsDefined(a, b)
    ensures FieldsEqual(a, b) <==> b.id == a.id
  {
  }

  /** Without an id, equality needs the other id absent too and the other four fields equal. */
  lemma EqualsWithoutId(a: Fields, b: Fields)
    requires a.id.None? && a.owningApplication.Some? && a.eventTypes.Some?
    ensures EqualsDefined(a, b)
    ensures FieldsEqual(a, b) <==>
              && b.id.None?
              && b.owningApplication == a.owningApplication
              && b.eventTypes.Some? && (forall y :: y in a.eventTypes.value <==> y in b.eventTypes.value)
              && b.consumerGroup == a.consumerGroup
              && b.createdAt == a.createdAt
  {
  }

  lemma EqualsReflexiveOnFields(a: Fields)
    requires EqualsDefined(a, a)
    ensures FieldsEqual(a, a)
  {
  }

  lemma EqualsSymmetric(a: Fields, b: Fields)
    requires EqualsDefined(a, b) && EqualsDefined(b, a)
    ensures FieldsEqual(a, b) == FieldsEqual(b, a)
  {
  }

  lemma EqualsTransitive(a: Fields, b: Fields, c: Fields)
    requires EqualsDefined(a, b) && EqualsDefined(b, c) && EqualsDefined(a, c)
    requires FieldsEqual(a, b) && FieldsEqual(b, c)
    ensures FieldsEqual(a, c)
  {
  }

  /** Subscription.hashCode: `result = 31 * result + h` over the five fields' hashes in
      `int` arithmetic, starting from the id's hash (0 for a null id). */
  function FieldsHashCode(f: Fields, dateHash: DateTimeHash): (h: int)
    requires f.owningApplication.Some? && f.eventTypes.Some?
    ensures IsInt(h)
    ensures h == Wrap(HashPolynomial(
                   if f.id.Some? then StringHashCode(f.id.value) else 0,
                   StringHashCode(f.owningApplication.value),
                   SetHashCode(f.eventTypes.value),
                   StringHashCode(f.consumerGroup),
                   dateHash(f.createdAt)))
  {
    var h0 := if f.id.Some? then StringHashCode(f.id.value) else 0;
    var h1 := StringHashCode(f.owningApplication.value);
    var h2 := SetHashCode(f.eventTypes.value);
    var h3 := StringHashCode(f.consumerGroup);
    var h4 := dateHash(f.createdAt);
    var r1 := Wrap(31 * h0 + h1);
    var r2 := Wrap(31 * r1 + h2);
    var r3 := Wrap(31 * r2 + h3);
    HashFold(h0, h1, h2, h3, h4);
    Wrap(31 * r3 + Wrap(h4))
  }

  /** Folding with a wrap after every step gives the polynomial wrapped once. */
  lemma HashFold(h0: int, h1: int, h2: int, h3: int, h4: int)
    ensures Wrap(31 * Wrap(31 * Wrap(31 * Wrap(31 * h0 + h1) + h2) + h3) + Wrap(h4))
         == Wrap(HashPolynomial(h0, h1, h2, h3, h4))
  {
    var p3 := 31 * (31 * (31 * h0 + h1) + h2) + h3;
    HashFoldThree(h0, h1, h2, h3);
    WrapLast(Wrap(31 * Wrap(31 * Wrap(31 * h0 + h1) + h2) + h3), p3, h4);
    assert HashPolynomial(h0, h1, h2, h3, h4) == 31 * p3 + h4;
  }

  /** The last step of the fold, which adds a wrapped value. */
  lemma WrapLast(w: int, p: int, x: int)
    requires w == Wrap(p)
    ensures Wrap(31 * w + Wrap(x)) == Wrap(31 * p + x)
  {
    WrapStep(p, Wrap(x));
    WrapAddend(31 * p, x);
  }

  /** The first three steps of the fold. */
  lemma HashFoldThree(h0: int, h1: int, h2: int, h3: int)
    ensures Wrap(31 * Wrap(31 * Wrap(31 * h0 + h1) + h2) + h3)
         == Wrap(31 * (31 * (31 * h0 + h1) + h2) + h3)
  {
    var p1 := 31 * h0 + h1;
    var p2 := 31 * p1 + h2;
    assert Wrap(31 * Wrap(p1) + h2) == Wrap(p2) by { WrapStep(p1, h2); }
    WrapStep(p2, h3);
  }

  /** The base-31 polynomial over the five field hashes, in unbounded integers. */
  function HashPolynomial(h0: int, h1: int, h2: int, h3: int, h4: int): (p: int) {
    31 * 31 * 31 * 31 * h0 + 31 * 31 * 31 * h1 + 31 * 31 * h2 + 31 * h3 + h4
  }

  // ---------------------------------------------------------------------------
  // Equal subscriptions may hash differently.

  /** Two records with the same id that differ in their owning application. */
  function SameIdOne(): (f: Fields) {
    Fields(Some("a"), Some("b"), Some([]), "none", DateTime(0, "UTC"))
  }

  function SameIdTwo(): (f: Fields) {
    Fields(Some("a"), Some("c"), Some([]), "none", DateTime(0, "UTC"))
  }

  /** As written, equals and hashCode disagree: the two records above are equal, yet their
      hash codes differ whatever DateTime.hashCode is. */
  lemma {:induction false} EqualButHashesDiffer(dateHash: DateTimeHash)
    ensures FieldsEqual(SameIdOne(), SameIdTwo())
    ensures FieldsHashCode(SameIdOne(), dateHash) != FieldsHashCode(SameIdTwo(), dateHash)
  {
    var a, b := SameIdOne(), SameIdTwo();
    SingleCharHash('b');
    SingleCharHash('c');
    var h0 := StringHashCode("a");
    var h2 := SetHashCode([]);
    var h3 := StringHashCode("none");
    var h4 := dateHash(DateTime(0, "UTC"));
    var x := HashPolynomial(h0, 98, h2, h3, h4);
    var y := HashPolynomial(h0, 99, h2, h3, h4);
    assert x - y == -29791;
    if FieldsHashCode(a, dateHash) == FieldsHashCode(b, dateHash) {
      CongruentOfWrap(x, y);
      assert false;
    }
  }

  /** The equality the hash code was written for: all five fields equal, an absent id
      matching only an absent id. */
  predicate FieldsEqualIntended(a: Fields, b: Fields) {
    && a.id == b.id
    && a.owningApplication == b.owningApplication
    && a.eventTypes.Some? && SetEquals(a.eventTypes.value, b.eventTypes)
    && a.consumerGroup == b.consumerGroup
    && a.createdAt == b.createdAt
  }

  /** The intended equality agrees with the hash code: equal records hash alike. */
  lemma IntendedEqualsConsistentWithHash(a: Fields, b: Fields, dateHash: DateTimeHash)
    requires a.owningApplication.Some? && a.eventTypes.Some? && StrictlyAscending(a.eventTypes.value)
    requires b.eventTypes.Some? ==> StrictlyAscending(b.eventTypes.value)
    requires FieldsEqualIntended(a, b)
    ensures b.owningApplication.Some? && b.eventTypes.Some?
    ensures FieldsHashCode(a, dateHash) == FieldsHashCode(b, dateHash)
  {
    AscendingUnique(a.eventTypes.value, b.eventTypes.value);
    assert a == b;
  }

  /** The intended equality is the one the written expression gives for records without id. */
  lemma IntendedAgreesWithoutId(a: Fields, b: Fields)
    requires a.id.None? && a.owningApplication.Some? && a.eventTypes.Some?
    ensures FieldsEqualIntended(a, b) <==> FieldsEqual(a, b)
  {
  }

  // ---------------------------------------------------------------------------

  class Subscription {
    var id: Option<string>
    var owningApplication: Option<string>
    var eventTypes: Option<seq<string>>
    var consumerGroup: string
    var createdAt: DateTime

    /** The stored event types are a TreeSet. */
    ghost predicate Valid()
      reads this
    {
      eventTypes.Some? ==> StrictlyAscending(eventTypes.value)
    }

    /** A new subscription: no id, application or event types; consumer group "none";
        created at `now`, the clock reading `new DateTime(DateTimeZone.UTC)` takes. */
    constructor(now: DateTime)
      ensures Valid()
      ensures id == None && owningApplication == None && eventTypes == None
      ensures consumerGroup == "none"
      ensures createdAt == now
    {
      id, owningApplication, eventTypes := None, None, None;
      consumerGroup := "none";
      createdAt := now;
    }

    function State(): (f: Fields)
      reads this
    {
      Fields(id, owningApplication, eventTypes, consumerGroup, createdAt)
    }

    method SetId(id: Option<string>)
      modifies this`id
      ensures this.id == id
    {
      this.id := id;
    }

    method SetOwningApplication(owningApplication: Option<string>)
      modifies this`owningApplication
      ensures this.owningApplication == owningApplication
    {
      this.owningApplication := owningApplication;
    }

    /** Stores a sorted copy of the given set: the copy holds the same elements, in
        ascending order, once each. */
    method SetEventTypes(eventTypes: set<string>)
      modifies this`eventTypes
      ensures Valid()
      ensures this.eventTypes.Some?
      ensures forall y :: y in this.eventTypes.value <==> y in eventTypes
    {
      var tree := NewTreeSet(eventTypes);
      this.eventTypes := Some(tree);
    }

    /** A read-only view of the stored set, in its ascending order. */
    function GetEventTypes(): (r: seq<string>)
      reads this
      requires eventTypes.Some?
      ensures Valid() ==> StrictlyAscending(r)
      ensures forall y :: y in r <==> y in eventTypes.value
    {
      eventTypes.value
    }

    method SetConsumerGroup(consumerGroup: string)
      modifies this`consumerGroup
      ensures this.consumerGroup == consumerGroup
    {
      this.consumerGroup := consumerGroup;
    }

    method SetCreatedAt(createdAt: DateTime)
      modifies this`createdAt
      ensures this.createdAt == createdAt
    {
      this.createdAt := createdAt;
    }

    /** Subscription.equals for another subscription or null. */
    function Equals(that: Subscription?): (r: bool)
      reads this, that
      requires that != null && that != this ==> EqualsDefined(State(), that.State())
      ensures that == this ==> r
      ensures that == null ==> !r
      ensures that != null && that != this && id.Some? ==> (r <==> that.id == id)
    {
      if that == this then true
      else if that == null then false
      else FieldsEqual(State(), that.State())
    }

    /** Subscription.hashCode. */
    function HashCode(dateHash: DateTimeHash): (h: int)
      reads this
      requires owningApplication.Some? && eventTypes.Some?
      ensures IsInt(h)
    {
      FieldsHashCode(State(), dateHash)
    }
  }
}
