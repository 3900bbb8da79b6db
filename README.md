# Nakadi ingestion core in Dafny

A verified model of four small pieces of the Nakadi event broker's domain and validation code:

- **The validator registry** (`Validation`, event_validation.dfy). A table maps an event-type name to an `EventTypeValidator`.
  - `ForType` registers a fresh validator with no rules for a new name and returns it.
  - For a name that is already taken, `ForType` fails with `IllegalStateException` and leaves the table alone. The failure message is built by Guava's `checkState`. The template uses `{}` where Guava expects `%s`, so the placeholder stays in the text and the name is appended in square brackets: `Validator for EventType {} already defined [name]`.
  - `Lookup` reads the table and yields null on a miss.
  - Each validator keeps its rules in order. `WithConfiguration` compiles one more rule through the named strategy, appends it and returns the same object. The table holds that object, so rules added later are visible through `Lookup`.
  - `Validate` passes when no rule rejects the event. Otherwise it fails with the one message `Some validation failed`.
- **`BatchItem`** (`Batch`, batch_item.dfy). This is the per-event progress record.
  - The constructor creates the item's own response object. It copies `event.metadata.eid` into the response when the metadata is a JSON object holding a non-null `eid`.
  - The setters change the partition, the step, or the status and detail together. Nothing else changes.
- **`Subscription`** (`Subscriptions`, subscription.dfy). This is a mutable record with field defaults and a sorted copy of its event types.
  - `equals` is modelled as the code reads it: `?:` binds looser than `&&`, so when an id is set only the ids are compared.
  - `hashCode` is the base-31 fold over all five fields in wrapping 32-bit arithmetic.
- **The case-insensitive enum codec** (`JsonConfig`, json_config.dfy).
  - Serialising writes the constant's name in lower case.
  - Deserialising looks up the uppercased input among the constant names. A miss fails with a message that quotes the input and lists the lowercased names joined by `", "`.

Supporting modules:
- wrappers.dfy: `Option`, `Result` and `Outcome`. A nullable reference is an `Option`; a thrown exception is a `Failure` or `Fail`.
- java_lang.dfy: Java `int` wrap-around, ASCII letter case, `String.hashCode` over UTF-16 code units, and the `String.compareTo` order.
- java_util.dfy: a `TreeSet<String>` as its ascending iteration sequence, `Sets.newTreeSet`, `AbstractSet.hashCode` and `Collectors.joining`.
- json.dfy: org.json values, with `opt`, `optJSONObject`, `optString` and the text `toString` produces.

Inputs the code reads from outside are parameters:
- the wall clock that `Subscription` reads for `createdAt`;
- the table of validation strategies;
- `DateTime.hashCode`.

## Model

| member | source | states |
|---|---|---|
| `Validation.EventValidation.constructor` | src/main/java/de/zalando/aruha/nakadi/validation/EventValidation.java:20 | the registry starts empty |
| `Validation.EventValidation.ForType` | src/main/java/de/zalando/aruha/nakadi/validation/EventValidation.java:22-29 | for a new name: exactly one entry is added under that name, holding a fresh validator for the event type with no rules, and that same object is returned; for a registered name: `IllegalStateException` with Guava's formatted message and an unchanged table; every validator stays filed under its own event type's name |
| `Validation.EventValidation.Lookup` | src/main/java/de/zalando/aruha/nakadi/validation/EventValidation.java:31-33 | yields the stored validator exactly when the name is registered and null otherwise, reading and never changing the table |
| `Validation.DistinctNamesDistinctValidators` | src/main/java/de/zalando/aruha/nakadi/validation/EventValidation.java:22-28 | two registered names never share a validator object |
| `Validation.EventTypeValidator.constructor` | src/main/java/de/zalando/aruha/nakadi/validation/EventValidation.java:39-44 | a new validator is bound to its event type and has no rules |
| `Validation.EventTypeValidator.Validate` | src/main/java/de/zalando/aruha/nakadi/validation/EventValidation.java:46-54 | passes iff every rule accepts the event (equivalently, the `anyMatch` of a rejecting rule is false); otherwise fails with `IllegalStateException("Some validation failed")` |
| `Validation.AnyRejectsIff` | src/main/java/de/zalando/aruha/nakadi/validation/EventValidation.java:47-53 | the `anyMatch` over the list is true iff some position holds a rule that rejects the event |
| `Validation.NoRulesAcceptAll` | src/main/java/de/zalando/aruha/nakadi/validation/EventValidation.java:46-54 | a validator without rules accepts every event |
| `Validation.AnyRejectsAppend` | src/main/java/de/zalando/aruha/nakadi/validation/EventValidation.java:56-61 | after one rule is appended, validation fails iff it failed before or the new rule rejects |
| `Validation.EventTypeValidator.WithConfiguration` | src/main/java/de/zalando/aruha/nakadi/validation/EventValidation.java:56-61 | appends exactly the named strategy's compiled rule after the existing ones, in order, and returns the same instance |
| `Validation.EventTypeValidator.Init` | src/main/java/de/zalando/aruha/nakadi/validation/EventValidation.java:63-66 | returns the same instance and changes nothing |
| `Validation.RegisterWithRule` | src/main/java/de/zalando/aruha/nakadi/validation/EventValidation.java:22-66 | `forType(t).withConfiguration(c).init()` on a new name: a later lookup yields the returned object, which holds the new rule; on a taken name it fails and the table is unchanged |
| `Batch.MetadataEid` | src/main/java/de/zalando/aruha/nakadi/domain/BatchItem.java:16-19 | an eid is found iff `metadata` is a JSON object whose `eid` is present and not JSON null, and it is then that value's `toString` text |
| `Batch.StringEidCarriedOver` | src/main/java/de/zalando/aruha/nakadi/domain/BatchItem.java:16-19 | a string eid is carried over unchanged |
| `Batch.NoEidWithoutMetadataObject` | src/main/java/de/zalando/aruha/nakadi/domain/BatchItem.java:16-19 | a missing or non-object `metadata` yields no eid, so the response keeps its initial eid |
| `Batch.BatchItemResponse.constructor` | src/main/java/de/zalando/aruha/nakadi/domain/BatchItem.java:13 | a new response holds its class's initial values, which are left open (`INITIAL_EID`, `INITIAL_STEP`, `INITIAL_STATUS`, `INITIAL_DETAIL`) |
| `Batch.BatchItem.constructor` | src/main/java/de/zalando/aruha/nakadi/domain/BatchItem.java:12-20 | keeps the event; creates a response object owned by this item alone; the eid found in the metadata, if any, replaces the response's initial eid, and step, status and detail keep their initial values; the partition starts null |
| `Batch.BatchItem.GetEvent` | src/main/java/de/zalando/aruha/nakadi/domain/BatchItem.java:22-24 | the event given to the constructor (a constant field) |
| `Batch.BatchItem.SetPartition` | src/main/java/de/zalando/aruha/nakadi/domain/BatchItem.java:26-28 | afterwards `GetPartition` yields the value set, null included; only the partition field may change |
| `Batch.BatchItem.GetPartition` | src/main/java/de/zalando/aruha/nakadi/domain/BatchItem.java:30-32 | the partition last set, nothing before the first `SetPartition` |
| `Batch.BatchItem.GetResponse` | src/main/java/de/zalando/aruha/nakadi/domain/BatchItem.java:34-36 | the response created by the constructor, the same object every time (a constant field) |
| `Batch.BatchItem.SetStep` | src/main/java/de/zalando/aruha/nakadi/domain/BatchItem.java:38-40 | sets the response's step to the value given, null included; status, detail and eid are unchanged |
| `Batch.BatchItem.UpdateStatusAndDetail` | src/main/java/de/zalando/aruha/nakadi/domain/BatchItem.java:42-45 | sets status and detail together to the values given, null included; step and eid are unchanged |
| `Subscriptions.Subscription.constructor` | src/main/java/de/zalando/aruha/nakadi/domain/Subscription.java:16-28 | id, owning application and event types start null; consumer group starts as "none"; `createdAt` is the clock reading |
| `Subscriptions.Subscription.SetId` | src/main/java/de/zalando/aruha/nakadi/domain/Subscription.java:34-36 | stores the id, possibly null; nothing else changes |
| `Subscriptions.Subscription.SetOwningApplication` | src/main/java/de/zalando/aruha/nakadi/domain/Subscription.java:42-44 | stores the application; nothing else changes |
| `Subscriptions.Subscription.SetEventTypes` | src/main/java/de/zalando/aruha/nakadi/domain/Subscription.java:50-52 | stores a copy holding exactly the given elements, ascending and duplicate-free; the copy is a value, so later changes to the caller's set cannot reach it |
| `Subscriptions.Subscription.GetEventTypes` | src/main/java/de/zalando/aruha/nakadi/domain/Subscription.java:46-48 | exactly the stored elements, in ascending order |
| `Subscriptions.Subscription.SetConsumerGroup` | src/main/java/de/zalando/aruha/nakadi/domain/Subscription.java:58-60 | stores the consumer group; nothing else changes |
| `Subscriptions.Subscription.SetCreatedAt` | src/main/java/de/zalando/aruha/nakadi/domain/Subscription.java:66-68 | stores the creation time; nothing else changes |
| `Subscriptions.Subscription.Equals` | src/main/java/de/zalando/aruha/nakadi/domain/Subscription.java:71-77 | true for the same object even when its fields are null; false for null; for another subscription while this id is set, true iff the ids are equal |
| `Subscriptions.EqualsByIdAlone` | src/main/java/de/zalando/aruha/nakadi/domain/Subscription.java:75 | when this id is set, equal iff the other id is the same, whatever the other fields hold |
| `Subscriptions.EqualsWithoutId` | src/main/java/de/zalando/aruha/nakadi/domain/Subscription.java:75-76 | when this id is null: equal iff the other id is null and the application, the event-type set, the consumer group and the creation time are all equal |
| `Subscriptions.EqualsReflexiveOnFields` | src/main/java/de/zalando/aruha/nakadi/domain/Subscription.java:75-76 | the field comparison is reflexive |
| `Subscriptions.EqualsSymmetric` | src/main/java/de/zalando/aruha/nakadi/domain/Subscription.java:75-76 | the field comparison is symmetric |
| `Subscriptions.EqualsTransitive` | src/main/java/de/zalando/aruha/nakadi/domain/Subscription.java:75-76 | the field comparison is transitive |
| `Subscriptions.FieldsHashCode` | src/main/java/de/zalando/aruha/nakadi/domain/Subscription.java:80-87 | a Java `int`; equal to the base-31 polynomial over the id's hash (0 if null), the application's, the set's, the consumer group's and the creation time's, wrapped once to 32 bits |
| `Subscriptions.HashFold` | src/main/java/de/zalando/aruha/nakadi/domain/Subscription.java:81-86 | wrapping after each `31 * result + h` step equals wrapping the whole polynomial once |
| `Subscriptions.Subscription.HashCode` | src/main/java/de/zalando/aruha/nakadi/domain/Subscription.java:79-87 | a Java `int`, computed from this subscription's five fields |
| `Subscriptions.EqualButHashesDiffer` | src/main/java/de/zalando/aruha/nakadi/domain/Subscription.java:75-87 | two subscriptions with the same id and different applications are equal, yet their hash codes differ for every `DateTime` hash |
| `Subscriptions.IntendedEqualsConsistentWithHash` | src/main/java/de/zalando/aruha/nakadi/domain/Subscription.java:80-87 | under the all-fields equality, equal subscriptions have equal hash codes |
| `Subscriptions.IntendedAgreesWithoutId` | src/main/java/de/zalando/aruha/nakadi/domain/Subscription.java:75-76 | for a subscription without id, the all-fields equality and the written one coincide |
| `JavaUtil.NewTreeSet` | src/main/java/de/zalando/aruha/nakadi/domain/Subscription.java:51 | the copy is strictly ascending and holds exactly the elements of the given set |
| `JavaUtil.Insert` | src/main/java/de/zalando/aruha/nakadi/domain/Subscription.java:51 | adding to the sorted set keeps it strictly ascending and adds exactly that element |
| `JavaUtil.AscendingUnique` | src/main/java/de/zalando/aruha/nakadi/domain/Subscription.java:51 | two sorted copies of the same set are identical |
| `JsonConfig.Serialize` | src/main/java/de/zalando/aruha/nakadi/config/JsonConfig.java:93-95 | the written text has no uppercase letter and equals the constant's name up to letter case |
| `JsonConfig.ValueOf` | src/main/java/de/zalando/aruha/nakadi/config/JsonConfig.java:77 | finds a constant with exactly the given name, and finds none iff no constant has that name |
| `JsonConfig.Deserialize` | src/main/java/de/zalando/aruha/nakadi/config/JsonConfig.java:72-84 | returns a constant whose name is the uppercased input; fails iff no name matches, with "Illegal enum value: '<input>'. Possible values: [<list>]" |
| `JsonConfig.LowerNames` | src/main/java/de/zalando/aruha/nakadi/config/JsonConfig.java:79-80 | one lowercased name per constant, in declaration order |
| `JsonConfig.RoundTrip` | src/main/java/de/zalando/aruha/nakadi/config/JsonConfig.java:77-94 | deserialising a serialised constant gives it back, when its name has no lowercase letter |
| `JsonConfig.CaseInsensitive` | src/main/java/de/zalando/aruha/nakadi/config/JsonConfig.java:77 | inputs that differ only in letter case succeed together and give the same constant |
| `JsonConfig.LowercaseNameUnreachable` | src/main/java/de/zalando/aruha/nakadi/config/JsonConfig.java:77 | no input ever deserialises to a constant whose name has a lowercase letter |
| `JsonConfig.PossibleValuesAppend` | src/main/java/de/zalando/aruha/nakadi/config/JsonConfig.java:79-82 | the listed values follow declaration order, separated by ", " |
| `JsonConfig.PossibleValuesOfOne` | src/main/java/de/zalando/aruha/nakadi/config/JsonConfig.java:79-82 | a single constant is listed alone, without a separator |

## Findings

| source | as written | input that shows it | evidently intended | confidence | as-written member | corrected member |
|---|---|---|---|---|---|---|
| src/main/java/de/zalando/aruha/nakadi/domain/Subscription.java:75-87 | `equals` compares only the ids once `id` is set, because `?:` binds looser than `&&`; `hashCode` mixes in all five fields | two subscriptions with id "a", owning applications "b" and "c", no event types, group "none" and the same creation time: `equals` is true, but the hash codes differ by 31³ modulo 2³² | `equals` compares all five fields, null-safe on the id, so that equal subscriptions hash alike as `hashCode` assumes | not executed; the disagreement is proved, and which side was intended is inferred from `hashCode` | `Subscriptions.EqualButHashesDiffer` | `Subscriptions.IntendedEqualsConsistentWithHash` |

The class's `Equals` keeps the written behaviour, because nothing else in the model compares subscriptions. The all-fields equality (`FieldsEqualIntended`) and its agreement with the hash code stand beside it.

## Left out

- Concurrency:
  - the registry is a concurrent map, and `forType` checks and then puts without holding a lock;
  - `updateStatusAndDetail` is `synchronized`.
  Every operation is modelled as a single sequential step.
- The registry is a static field in the code. Here it is one `EventValidation` object that callers share.
- `ValidationStrategy.lookup` and `materialize` are not part of this model. Strategies are a table passed as a parameter. `WithConfiguration` requires the named strategy to be in the table, because the code's behaviour for an unknown name is not visible. A rule's `isValidFor` is a total function from events to booleans.
- `Validate` reports one generic failure, whichever rules rejected; registration is check-then-put; nothing removes a registered validator. There is no batch orchestration: the code that drives `BatchItem` through the steps is not part of this model.
- `BatchItemResponse`, `EventPublishingStep` and `EventPublishingStatus` are not part of this model. The two enums are abstract types, since `BatchItem` only passes their values on. The response's initial field values are left open as the constants `INITIAL_EID`, `INITIAL_STEP`, `INITIAL_STATUS` and `INITIAL_DETAIL`.
- Java nulls that the code would dereference are excluded by types or preconditions:
  - a null event;
  - a null event type, or one with a null name (the concurrent map's `containsKey` rejects a null key);
  - a null enum input string;
  - a null consumer group or creation time passed to a setter (`hashCode` dereferences both);
  - null elements in the event-type set.
  `Subscription.Equals` requires its fields to be non-null wherever the comparison dereferences them.
- `Subscription.Equals` takes another subscription or null. The `getClass()` comparison with objects of other classes and subclasses is not modelled.
- Subscription getters other than `getEventTypes` are plain field reads and have no members of their own.
- `Subscriptions.Subscription.HashCode` states only that the result is an `int`. The polynomial is stated by `Subscriptions.FieldsHashCode`, which it returns.
- `DateTime` is an instant plus a chronology, compared field by field. Its hash code is a parameter of the subscription hash. The wall-clock default is a constructor parameter.
- The `TreeSet` order compares Unicode code points. Java compares UTF-16 code units, which orders characters above U+FFFF differently against U+E000–U+FFFF.
- Letter case is converted for ASCII letters only. The JDK's conversion is full Unicode and depends on the locale.
- For org.json:
  - numbers are kept as the text org.json writes for them;
  - an object's members are kept in the order the object iterates them, which in org.json follows a hash map.
- `JsonConfig.jacksonObjectMapper` and `enumModule` only register modules with Jackson and set naming and date options. They are not modelled. `AbstractDbRepositoryTest` is database set-up and `NoSuchEventTypeException` maps to an HTTP status; both are not part of this model.
