/** The validator registry: a table from event-type name to the validator built for that
    type, and the per-type validator, an ordered list of rules that must all accept an
    event. */
module Validation {
  import opened Wrappers
  import opened Json

  /** An event type; the registry uses only its name. */
  datatype EventType = EventType(name: string)

  /** A rule configuration: the name of the strategy that compiles it and the
      strategy-specific settings, which only the strategy reads. */
  datatype ValidationStrategyConfiguration =
    ValidationStrategyConfiguration(strategyName: string, additionalProperties: Json)

  /** EventValidator.isValidFor: whether one compiled rule accepts an event. */
  type EventValidator = Json -> bool

  /** ValidationStrategy.materialize: compiles a configuration into a rule. */
  type ValidationStrategy = (EventType, ValidationStrategyConfiguration) -> EventValidator

  datatype Exception = IllegalStateException(message: string)

  const SOME_VALIDATION_FAILED: string := "Some validation failed"

  /** The message of the duplicate-registration failure. Guava's checkState substitutes
      arguments only for "%s"; the template holds "{}" instead, so the placeholder stays
      as it is and the unused argument is appended in square brackets. */
  function AlreadyDefinedMessage(name: string): (message: string) {
    "Validator for EventType {} already defined [" + name + "]"
  }

  /** `rules.stream().anyMatch(t -> !t.isValidFor(event))`. */
  predicate AnyRejects(rules: seq<EventValidator>, event: Json) {
    rules != [] && (!rules[0](event) || AnyRejects(rules[1..], event))
  }

  /** Some rule rejects the event exactly when there is a position holding a rejecting rule. */
  lemma {:induction false} AnyRejectsIff(rules: seq<EventValidator>, event: Json)
    ensures AnyRejects(rules, event) <==> exists i :: 0 <= i < |rules| && !rules[i](event)
    decreases |rules|
  {
    if rules != [] {
      AnyRejectsIff(rules[1..], event);
      assert forall i :: 1 <= i < |rules| ==> rules[i] == rules[1..][i - 1];
      if !rules[0](event) {
        assert 0 < |rules| && !rules[0](event);
      }
    }
  }

  /** Appending a rule: the list rejects afterwards iff it rejected before or the new rule
      rejects. */
  lemma {:induction false} AnyRejectsAppend(rules: seq<EventValidator>, rule: EventValidator, event: Json)
    ensures AnyRejects(rules + [rule], event) <==> AnyRejects(rules, event) || !rule(event)
    decreases |rules|
  {
    if rules == [] {
      assert [rule][1..] == [];
    } else {
      assert (rules + [rule])[1..] == rules[1..] + [rule];
      AnyRejectsAppend(rules[1..], rule, event);
    }
  }

  /** A validator with no rules accepts every event. */
  lemma NoRulesAcceptAll(event: Json)
    ensures !AnyRejects([], event)
  {
  }

  class EventTypeValidator {
    const eventType: EventType
    var validators: seq<EventValidator>

    constructor(eventType: EventType)
      ensures this.eventType == eventType
      ensures validators == []
    {
      this.eventType := eventType;
      validators := [];
    }

    /** Passes when no rule rejects the event; otherwise fails with IllegalStateException
        and the one generic message, whichever rules rejected. */
    method Validate(event: Json) returns (r: Outcome<Exception>)
      ensures r.Pass? <==> forall i :: 0 <= i < |validators| ==> validators[i](event)
      ensures r.Pass? <==> !AnyRejects(validators, event)
      ensures r.Fail? ==> r.error == IllegalStateException(SOME_VALIDATION_FAILED)
    {
      AnyRejectsIff(validators, event);
      var i := 0;
      var rejected := false;
      while i < |validators| && !rejected
        invariant 0 <= i <= |validators|
        invariant rejected <==> exists k :: 0 <= k < i && !validators[k](event)
        invariant !rejected ==> forall k :: 0 <= k < i ==> validators[k](event)
      {
        if !validators[i](event) {
          rejected := true;
        }
        i := i + 1;
      }
      if rejected {
        r := Fail(IllegalStateException(SOME_VALIDATION_FAILED));
      } else {
        r := Pass;
      }
    }

    /** Looks up the strategy named by the configuration, compiles the configuration for
        this event type and appends the rule after the existing ones; returns this
        validator. */
    method WithConfiguration(vsc: ValidationStrategyConfiguration, strategies: map<string, ValidationStrategy>)
      returns (self: EventTypeValidator)
      requires vsc.strategyName in strategies
      modifies this`validators
      ensures self == this
      ensures validators == old(validators) + [strategies[vsc.strategyName](eventType, vsc)]
    {
      var strategy := strategies[vsc.strategyName];
      validators := validators + [strategy(eventType, vsc)];
      self := this;
    }

    /** Returns this validator and changes nothing. */
    method Init() returns (self: EventTypeValidator)
      ensures self == this
      ensures validators == old(validators)
    {
      self := this;
    }
  }

  /** The process-wide registry, modelled as one object. */
  class EventValidation {
    var eventTypeValidators: map<string, EventTypeValidator>

    /** Every validator is registered under the name of the event type it was built for. */
    ghost predicate Valid()
      reads this
    {
      forall name :: name in eventTypeValidators ==> eventTypeValidators[name].eventType.name == name
    }

    constructor()
      ensures Valid()
      ensures eventTypeValidators == map[]
    {
      eventTypeValidators := map[];
    }

    /** Registers a new, rule-less validator for an unregistered name and returns it; for a
        name that is already registered fails with IllegalStateException and changes
        nothing. */
    method ForType(eventType: EventType) returns (r: Result<EventTypeValidator, Exception>)
      requires Valid()
      modifies this
      ensures Valid()
      ensures old(eventType.name in eventTypeValidators) ==>
                r == Failure(IllegalStateException(AlreadyDefinedMessage(eventType.name)))
                && eventTypeValidators == old(eventTypeValidators)
      ensures old(eventType.name !in eventTypeValidators) ==>
                && r.Ok?
                && fresh(r.value)
                && r.value.eventType == eventType
                && r.value.validators == []
                && eventTypeValidators == old(eventTypeValidators)[eventType.name := r.value]
    {
      if eventType.name in eventTypeValidators {
        r := Failure(IllegalStateException(AlreadyDefinedMessage(eventType.name)));
        return;
      }
      var etsv := new EventTypeValidator(eventType);
      eventTypeValidators := eventTypeValidators[eventType.name := etsv];
      r := Ok(etsv);
    }

    /** The validator registered under the event type's name, or null. */
    function Lookup(eventType: EventType): (v: EventTypeValidator?)
      reads this
      ensures v != null <==> eventType.name in eventTypeValidators
      ensures v != null ==> v == eventTypeValidators[eventType.name]
      ensures v != null && Valid() ==> v.eventType.name == eventType.name
    {
      if eventType.name in eventTypeValidators then eventTypeValidators[eventType.name] else null
    }
  }

  /** Distinct registered names hold distinct validator objects, so configuring the
      validator of one type never changes what another type's lookup yields. */
  lemma DistinctNamesDistinctValidators(registry: EventValidation, a: string, b: string)
    requires registry.Valid()
    requires a in registry.eventTypeValidators && b in registry.eventTypeValidators && a != b
    ensures registry.eventTypeValidators[a] != registry.eventTypeValidators[b]
  {
  }

  /** The usual fluent set-up, `forType(t).withConfiguration(c).init()`: the rule added
      through the returned object is visible through a later lookup, because the table
      holds that same object. */
  method RegisterWithRule(registry: EventValidation, eventType: EventType,
                          vsc: ValidationStrategyConfiguration, strategies: map<string, ValidationStrategy>)
    returns (r: Result<EventTypeValidator, Exception>)
    requires registry.Valid()
    requires vsc.strategyName in strategies
    modifies registry
    ensures registry.Valid()
    ensures old(eventType.name in registry.eventTypeValidators) ==>
              r.Failure? && registry.eventTypeValidators == old(registry.eventTypeValidators)
    ensures old(eventType.name !in registry.eventTypeValidators) ==>
              && r.Ok?
              && registry.Lookup(eventType) == r.value
              && r.value.validators == [strategies[vsc.strategyName](eventType, vsc)]
  {
    r := registry.ForType(eventType);
    if r.Ok? {
      var v := r.value.WithConfiguration(vsc, strategies);
      v := v.Init();
    }
  }
}
