/** One event of a submitted batch and the progress record the publishing pipeline fills in
    for it. */
module Batch {
  import opened Wrappers
  import opened Json

  /** The pipeline stage and the outcome recorded for an event. Their constants are not
      part of this model; BatchItem only passes values of them on. */
  type EventPublishingStep(==)
  type EventPublishingStatus(==)

  /** The values a new BatchItemResponse's fields start with. That class is not part of this
      model, so they are left open; Java's `null` is `None`. */
  const INITIAL_EID: Option<string>
  const INITIAL_STEP: Option<EventPublishingStep>
  const INITIAL_STATUS: Option<EventPublishingStatus>
  const INITIAL_DETAIL: Option<string>

  /** The per-event response, as BatchItem uses it: four nullable fields. */
  class BatchItemResponse {
    var eid: Option<string>
    var step: Option<EventPublishingStep>
    var publishingStatus: Option<EventPublishingStatus>
    var detail: Option<string>

    constructor()
      ensures eid == INITIAL_EID && step == INITIAL_STEP
      ensures publishingStatus == INITIAL_STATUS && detail == INITIAL_DETAIL
    {
      eid, step, publishingStatus, detail := INITIAL_EID, INITIAL_STEP, INITIAL_STATUS, INITIAL_DETAIL;
    }
  }

  /** The event id the constructor copies into the response: the text of
      `event.metadata.eid` when `metadata` is an object whose `eid` is present and not
      JSON null; otherwise nothing. */
  function MetadataEid(event: seq<(string, Json)>): (eid: Option<string>)
    ensures eid.Some? <==>
              && OptJsonObject(event, "metadata").Some?
              && Opt(OptJsonObject(event, "metadata").value, "eid").Some?
              && !Opt(OptJsonObject(event, "metadata").value, "eid").value.JNull?
    ensures eid.Some? ==>
              eid.value == ToJavaString(Opt(OptJsonObject(event, "metadata").value, "eid").value)
  {
    match OptJsonObject(event, "metadata")
    case None => None
    case Some(metadata) => OptString(metadata, "eid")
  }

  /** A string eid is carried over character for character. */
  lemma StringEidCarriedOver(event: seq<(string, Json)>, metadata: seq<(string, Json)>, eid: string)
    requires Opt(event, "metadata") == Some(JObject(metadata))
    requires Opt(metadata, "eid") == Some(JString(eid))
    ensures MetadataEid(event) == Some(eid)
  {
  }

  /** Without a metadata object nothing is carried over, so the response keeps its own eid. */
  lemma NoEidWithoutMetadataObject(event: seq<(string, Json)>)
    requires Opt(event, "metadata").None? || !Opt(event, "metadata").value.JObject?
    ensures MetadataEid(event) == None
  {
  }

  class BatchItem {
    const response: BatchItemResponse
    const event: seq<(string, Json)>
    var partition: Option<string>

    /** Wraps an event (a JSON object); the response is created here and belongs to this
        item alone; the eid found in the event's metadata, if any, replaces the response's
        initial eid, and its other fields keep their initial values. */
    constructor(event: seq<(string, Json)>)
      ensures this.event == event
      ensures fresh(response)
      ensures partition == None
      ensures response.eid == if MetadataEid(event).Some? then MetadataEid(event) else INITIAL_EID
      ensures response.step == INITIAL_STEP
      ensures response.publishingStatus == INITIAL_STATUS
      ensures response.detail == INITIAL_DETAIL
    {
      var r := new BatchItemResponse();
      var eid := MetadataEid(event);
      if eid.Some? {
        r.eid := eid;
      }
      response := r;
      this.event := event;
      partition := None;
    }

    /** The event passed to the constructor. */
    function GetEvent(): (e: seq<(string, Json)>)
      ensures e == event
    {
      event
    }

    /** Stores the partition, which may be null. */
    method SetPartition(p: Option<string>)
      modifies this`partition
      ensures partition == p
      ensures GetPartition() == p
    {
      partition := p;
    }

    /** The partition set last, nothing before the first SetPartition. */
    function GetPartition(): (p: Option<string>)
      reads this
      ensures p == partition
    {
      partition
    }

    /** The response created by the constructor, the same object on every call. */
    function GetResponse(): (r: BatchItemResponse)
      ensures r == response
    {
      response
    }

    /** Records the stage; status, detail and eid stay as they were. */
    method SetStep(step: Option<EventPublishingStep>)
      modifies response`step
      ensures response.step == step
      ensures response.eid == old(response.eid)
      ensures response.publishingStatus == old(response.publishingStatus)
      ensures response.detail == old(response.detail)
    {
      response.step := step;
    }

    /** Records status and detail together; step and eid stay as they were. */
    method UpdateStatusAndDetail(publishingStatus: Option<EventPublishingStatus>, detail: Option<string>)
      modifies response`publishingStatus, response`detail
      ensures response.publishingStatus == publishingStatus
      ensures response.detail == detail
      ensures response.eid == old(response.eid)
      ensures response.step == old(response.step)
    {
      response.publishingStatus := publishingStatus;
      response.detail := detail;
    }
  }
}
