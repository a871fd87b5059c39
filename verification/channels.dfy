/** The resource channel bundle, with its goroutines abstracted away: every
    kind a builder may read is either a channel that was created and already
    holds its one `(list, error)` pair, or a channel that was never created
    (reading such a channel blocks forever). */
module Channels {
  import opened Common

  datatype Phase = Pending | Running | Succeeded | Failed | Unknown

  datatype Pod = Pod(meta: ObjectMeta, phase: Phase)

  datatype EventType = Normal | Warning

  /** A cluster event; `involvedName` names the object the event is about. */
  datatype Event = Event(namespace: string, involvedName: string, eventType: EventType, message: string)

  datatype Node = Node(name: string)

  datatype Service = Service(meta: ObjectMeta)

  /** A batch job as the API returns it: its metadata, the match labels of its
      selector, its optional target completion count and its active count. */
  datatype BatchJob = BatchJob(meta: ObjectMeta, selector: Labels, completions: Option<int>, active: int)

  /** The value and the error one fetch delivered on a channel pair. */
  datatype Slot<+T> = Slot(list: T, err: Option<Error>)

  /** One optional slot per resource kind; `None` is a channel never created. */
  datatype ResourceChannels = ResourceChannels(
    releaseList: Option<Slot<seq<string>>>,
    jobList: Option<Slot<seq<BatchJob>>>,
    nodeList: Option<Slot<seq<Node>>>,
    serviceList: Option<Slot<seq<Service>>>,
    podList: Option<Slot<seq<Pod>>>,
    eventList: Option<Slot<seq<Event>>>)

  /** The first error met when draining the given error slots in order, or
      `None` when every slot delivered a nil error. */
  function FirstError(errs: seq<Option<Error>>): (r: Option<Error>)
    ensures r.None? <==> forall i :: 0 <= i < |errs| ==> errs[i].None?
    ensures r.Some? ==> exists i :: 0 <= i < |errs| && errs[i] == r && forall j :: 0 <= j < i ==> errs[j].None?
  {
    if errs == [] then None
    else if errs[0].Some? then errs[0]
    else
      var rest := FirstError(errs[1..]);
      assert forall i :: 1 <= i < |errs| ==> errs[i] == errs[1..][i - 1];
      rest
  }

  /** Every channel a builder reads on the path it takes was created, so no
      read blocks forever: its own kind's channel always, the pod channel
      once its kind succeeded, the event channel once pods succeeded. */
  predicate Drainable<T>(primary: Option<Slot<T>>, ch: ResourceChannels) {
    && primary.Some?
    && (primary.value.err.None? ==> ch.podList.Some?)
    && (primary.value.err.None? && ch.podList.value.err.None? ==> ch.eventList.Some?)
  }

  /** The errors a builder reads, in the order it reads them. */
  function DrainedErrors<T>(primary: Option<Slot<T>>, ch: ResourceChannels): (errs: seq<Option<Error>>)
    requires Drainable(primary, ch)
    ensures 1 <= |errs| <= 3 && errs[0] == primary.value.err
  {
    var first := primary.value.err;
    if first.Some? then [first]
    else if ch.podList.value.err.Some? then [first, ch.podList.value.err]
    else [first, ch.podList.value.err, ch.eventList.value.err]
  }

  /** Where draining ends: the server does not know the builder's kind, an
      error stopped the drain, or every read succeeded. */
  datatype DrainOutcome = KindNotFound | StoppedAt(err: Error) | AllRead(pods: seq<Pod>, events: seq<Event>)

  /** Reads the builder's own kind, then pods, then events, stopping at the
      first error; a NotFound on the builder's own kind is set apart. */
  function Drain<T>(primary: Option<Slot<T>>, ch: ResourceChannels): (d: DrainOutcome)
    requires Drainable(primary, ch)
    ensures d.KindNotFound? <==> primary.value.err.Some? && IsNotFound(primary.value.err.value)
    ensures primary.value.err.Some? && !IsNotFound(primary.value.err.value) ==> d == StoppedAt(primary.value.err.value)
    ensures primary.value.err.None? && ch.podList.value.err.Some? ==> d == StoppedAt(ch.podList.value.err.value)
    ensures primary.value.err.None? && ch.podList.value.err.None? && ch.eventList.value.err.Some? ==>
              d == StoppedAt(ch.eventList.value.err.value)
    ensures d.AllRead? <==> primary.value.err.None? && ch.podList.value.err.None? && ch.eventList.value.err.None?
    ensures d.AllRead? ==> d.pods == ch.podList.value.list && d.events == ch.eventList.value.list
  {
    var first := primary.value;
    if first.err.Some? then
      if IsNotFound(first.err.value) then KindNotFound else StoppedAt(first.err.value)
    else
      var pods := ch.podList.value;
      if pods.err.Some? then StoppedAt(pods.err.value)
      else
        var events := ch.eventList.value;
        if events.err.Some? then StoppedAt(events.err.value)
        else AllRead(pods.list, events.list)
  }

  /** Apart from the NotFound case, the drain stops at the first error in
      read order, and reads everything exactly when there is none. */
  lemma DrainStopsAtFirstError<T>(primary: Option<Slot<T>>, ch: ResourceChannels)
    requires Drainable(primary, ch)
    requires !Drain(primary, ch).KindNotFound?
    ensures Drain(primary, ch).AllRead? <==> FirstError(DrainedErrors(primary, ch)).None?
    ensures Drain(primary, ch).StoppedAt? ==> Some(Drain(primary, ch).err) == FirstError(DrainedErrors(primary, ch))
  {
    var errs := DrainedErrors(primary, ch);
    if errs[0].None? {
      var pods := ch.podList.value.err;
      if pods.Some? {
        assert errs[1..] == [pods];
      } else {
        assert errs[1..] == [pods, ch.eventList.value.err];
        assert errs[1..][1..] == [ch.eventList.value.err];
        assert errs[1..][1..][1..] == [];
        assert FirstError(errs[1..][1..]) == ch.eventList.value.err;
      }
    }
  }
}
