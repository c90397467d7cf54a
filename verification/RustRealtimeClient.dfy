/**
  The Rust `RealtimeClient` and its background worker: the shared channel map and command queue, updated step by step.
  The object carries the history of its steps; every method extends it by the steps it takes, so that what is proved of
  all runs is a postcondition of every method.
 */
module RustClientClass {
  import opened Utf8
  import opened RustClient

  class RealtimeClient {
    const reconnect: bool
    var channels: set<Channel>
    var queue: seq<Command>
    var calls: map<nat, Command>
    var phase: Phase
    var told: seq<Command>
    ghost var greeted: nat
    ghost var accepted: seq<Command>
    ghost var taken: seq<Taken>
    ghost var losses: nat
    ghost var history: seq<Event>

    ghost function State(): (c: Client)
      reads this
    {
      Client(reconnect, channels, queue, calls, phase, told, greeted, accepted, taken, losses)
    }

    /** The object is where its history leads a fresh client. */
    ghost predicate Valid()
      reads this
    {
      ValidRun(Fresh(reconnect), history) && State() == Run(Fresh(reconnect), history)
    }

    /**
      With the connection greeted and no call half done, the frames sent and then the queue leave the server with the
      keys of the map exactly when the last words are kept, and always if no two calls overlapped on a channel; commands
      are neither reordered nor, but for one per lost connection, lost.
     */
    ghost predicate Agreement()
      reads this
    {
      && (phase.Online? && calls == map[] ==> (Effects({}, told + queue) == channels <==> LastWordsKept(State())))
      && (phase.Online? && calls == map[] && SeparateRun(Fresh(reconnect), history) ==> Effects({}, told + queue) == channels)
      && Commands(taken) + queue == accepted && Failures(taken) <= losses
    }

    lemma AgreementHolds()
      requires Valid()
      ensures Agreement()
    {
      AgreementExact(reconnect, history);
      if SeparateRun(Fresh(reconnect), history) {
        QueueAgreement(reconnect, history);
      }
      QueueConservation(Fresh(reconnect), history);
    }

    /** Records a step the fields have taken. */
    ghost method Record(before: Client, e: Event)
      requires ValidRun(Fresh(reconnect), history) && before == Run(Fresh(reconnect), history)
      requires Enabled(before, e) && State() == Apply(before, e)
      modifies this`history
      ensures history == old(history) + [e] && Valid() && Agreement()
    {
      RunSnoc(Fresh(reconnect), history, e);
      history := history + [e];
      AgreementHolds();
    }

    constructor (reconnect: bool)
      ensures Valid() && Agreement() && State() == Fresh(reconnect) && history == []
    {
      this.reconnect := reconnect;
      channels, queue, calls, phase, told := {}, [], map[], Offline, [];
      greeted, accepted, taken, losses, history := 0, [], [], 0, [];
    }

    // -------------------------------------------------------------- callers

    /** `send_frame`: fails once the worker has ended. */
    method SendFrame(x: Command) returns (ok: bool)
      modifies this`queue, this`accepted
      ensures ok == !phase.Stopped?
      ensures queue == (if ok then old(queue) + [x] else old(queue))
      ensures accepted == (if ok then old(accepted) + [x] else old(accepted))
    {
      ok := !phase.Stopped?;
      if ok {
        queue := queue + [x];
        accepted := accepted + [x];
      }
    }

    /** The first half of `subscribe`: `entry(..).or_insert_with(..)`. */
    method InsertKey(call: nat, ch: Channel)
      requires Valid() && call !in calls
      modifies this`channels, this`calls, this`history
      ensures Valid() && Agreement() && history == old(history) + [BeginSubscribe(call, ch)]
      ensures channels == old(channels) + {ch} && calls == old(calls)[call := Sub(ch)]
    {
      channels := channels + {ch};
      calls := calls[call := Sub(ch)];
      Record(old(State()), BeginSubscribe(call, ch));
    }

    /** The first half of `unsubscribe`: `channels.remove(..)`. */
    method RemoveEntry(call: nat, ch: Channel)
      requires Valid() && call !in calls
      modifies this`channels, this`calls, this`phase, this`history
      ensures Valid() && Agreement() && history == old(history) + [BeginUnsubscribe(call, ch)]
      ensures channels == old(channels) - {ch} && calls == old(calls)[call := Unsub(ch)]
      ensures phase.Stopped? == old(phase.Stopped?)
    {
      channels := channels - {ch};
      if phase.Resubscribing? {
        phase := Resubscribing(phase.visited, phase.stable - {ch});
      }
      calls := calls[call := Unsub(ch)];
      Record(old(State()), BeginUnsubscribe(call, ch));
    }

    /** The second half of either: its command is queued. */
    method FinishCall(call: nat) returns (ok: bool)
      requires Valid() && call in calls
      modifies this`queue, this`accepted, this`calls, this`history
      ensures Valid() && Agreement() && history == old(history) + [EndCall(call)]
      ensures ok == !phase.Stopped?
      ensures queue == if ok then old(queue) + [old(calls)[call]] else old(queue)
      ensures calls == old(calls) - {call}
    {
      ok := SendFrame(calls[call]);
      calls := calls - {call};
      Record(old(State()), EndCall(call));
    }

    /** A `subscribe` that nothing interrupts. */
    method Subscribe(call: nat, ch: Channel) returns (ok: bool)
      requires Valid() && call !in calls
      modifies this`channels, this`queue, this`accepted, this`calls, this`history
      ensures Valid() && Agreement() && history == old(history) + [BeginSubscribe(call, ch), EndCall(call)]
      ensures channels == old(channels) + {ch} && calls == old(calls) && ok == !phase.Stopped?
      ensures queue == if ok then old(queue) + [Sub(ch)] else old(queue)
    {
      InsertKey(call, ch);
      assert calls - {call} == old(calls);
      ok := FinishCall(call);
      assert history == old(history) + [BeginSubscribe(call, ch), EndCall(call)];
    }

    /** An `unsubscribe` that nothing interrupts. */
    method Unsubscribe(call: nat, ch: Channel) returns (ok: bool)
      requires Valid() && call !in calls
      modifies this`channels, this`queue, this`accepted, this`calls, this`phase, this`history
      ensures Valid() && Agreement() && history == old(history) + [BeginUnsubscribe(call, ch), EndCall(call)]
      ensures channels == old(channels) - {ch} && calls == old(calls) && ok == !phase.Stopped?
      ensures queue == if ok then old(queue) + [Unsub(ch)] else old(queue)
    {
      RemoveEntry(call, ch);
      assert calls - {call} == old(calls);
      ok := FinishCall(call);
      assert history == old(history) + [BeginUnsubscribe(call, ch), EndCall(call)];
    }

    /** `publish`, `unicast` and `replay`. */
    method SendData(ch: Channel, payload: seq<Scalar>) returns (ok: bool)
      requires Valid()
      modifies this`queue, this`accepted, this`history
      ensures Valid() && Agreement() && ok == !phase.Stopped?
      ensures queue == if ok then old(queue) + [Data(ch, payload)] else old(queue)
    {
      ok := SendFrame(Data(ch, payload));
      if ok {
        Record(old(State()), Enqueue(ch, payload));
      } else {
        AgreementHolds();
      }
    }

    // -------------------------------------------------------------- the background worker

    /** `handle_connection` up to its loop over the map. */
    method OnConnected()
      requires Valid() && phase.Offline?
      modifies this`told, this`phase, this`history
      ensures Valid() && Agreement() && history == old(history) + [Connected]
      ensures told == [Auth] && phase == Resubscribing({}, channels)
    {
      told := [Auth];
      phase := Resubscribing({}, channels);
      Record(old(State()), Connected);
    }

    method ResubscribeOne(ch: Channel)
      requires Valid() && phase.Resubscribing? && ch in channels
      modifies this`told, this`phase, this`history
      ensures Valid() && Agreement() && history == old(history) + [Visit(ch)]
      ensures told == old(told) + [Sub(ch)]
    {
      told := told + [Sub(ch)];
      phase := Resubscribing(phase.visited + {ch}, phase.stable);
      Record(old(State()), Visit(ch));
    }

    /** The loop over the map ends; every channel nobody is touching is now as the map has it. */
    method FinishGreeting()
      requires Valid() && phase.Resubscribing? && phase.stable <= phase.visited
      modifies this`phase, this`greeted, this`history
      ensures Valid() && Agreement() && history == old(history) + [VisitedAll] && phase.Online?
      ensures forall ch: Channel | !InFlight(State(), ch) && !Mentions(queue, ch) :: ch in Effects({}, told) <==> ch in channels
    {
      phase := Online;
      greeted := |told|;
      Record(old(State()), VisitedAll);
      forall ch: Channel | !InFlight(State(), ch) && !Mentions(queue, ch) ensures ch in Effects({}, told) <==> ch in channels {
        ReconnectRestores(reconnect, history, ch);
      }
    }

    /** The `cmd_rx.recv()` arm of the select loop; a failed send loses the command with the connection. */
    method ForwardNext(sendSucceeds: bool)
      requires Valid() && phase.Online? && queue != []
      modifies this`queue, this`taken, this`told, this`phase, this`losses, this`history
      ensures Valid() && Agreement()
      ensures history == old(history) + [if sendSucceeds then SendNext else SendNextFails]
      ensures sendSucceeds ==> phase.Online? && told + queue == old(told + queue)
      ensures !sendSucceeds ==> !phase.Online? && queue == old(queue)[1..]
      ensures sendSucceeds && queue == [] && calls == map[] && SeparateRun(Fresh(reconnect), history) ==>
                Effects({}, told) == channels
    {
      var raw := queue[0];
      queue := queue[1..];
      taken := taken + [Taken(raw, sendSucceeds)];
      if sendSucceeds {
        told := told + [raw];
        assert told + queue == old(told + queue);
      } else {
        Disconnected();
      }
      Record(old(State()), if sendSucceeds then SendNext else SendNextFails);
      assert queue == [] ==> told + queue == told;
    }

    /** The heartbeat arm of the select loop. */
    method OnHeartbeat()
      requires Valid() && phase.Online?
      modifies this`told, this`history
      ensures Valid() && Agreement() && history == old(history) + [Heartbeat] && told == old(told) + [Ping]
    {
      told := told + [Ping];
      Record(old(State()), Heartbeat);
    }

    /** Connecting fails, or the connection ends. */
    method OnLost()
      requires Valid() && !phase.Stopped?
      modifies this`phase, this`losses, this`history
      ensures Valid() && Agreement() && !phase.Online?
      ensures phase.Stopped? == !reconnect
    {
      ghost var e := if phase.Offline? then ConnectFailed else ConnectionLost;
      Disconnected();
      Record(old(State()), e);
    }

    method Disconnected()
      modifies this`phase, this`losses
      ensures State() == Lost(old(State()))
    {
      phase := if reconnect then Offline else Stopped;
      losses := losses + 1;
    }
  }
}
