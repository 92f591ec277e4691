/** The event loop's state as the client keeps it: an open picker or none, and what is still being
    listened to, updated in place by each event. */
module ClientPump {
  import opened Prelude
  import O = OuterEvents
  import opened PickerRows
  import opened Streaming
  import opened RowAssembly
  import R = Roster
  import opened Picker
  import opened PickerKeys
  import Runs = PickerRuns
  import opened PickerRender
  import opened Pump

  lemma ForwardedOnto(before: seq<Act>, chunk: seq<byte>, kept: seq<byte>, events: seq<O.Event>)
    requires O.Scanned(kept, events) == O.Scan(chunk)
    ensures before + Forwarded(chunk) ==
            if kept == [] then before + Notices(events) else before + Notices(events) + [ToDaemon(Input(kept))]
  {
    hide O.Scan;
    var input: seq<Act> := if kept == [] then [] else [ToDaemon(Input(kept))];
    assert Forwarded(chunk) == Notices(events) + input;
    ConcatAssociative(before, Notices(events), input);
    assert before + Notices(events) + [] == before + Notices(events);
  }

  /** What `Chosen` makes of the loop depends on the loop but for the picker the keys were typed into. */
  lemma ChosenFrom(before: Loop, fed: Loop, o: Outcome, roster: seq<R.RosterHost>, reply: KillReply)
    requires fed.picker.Some? && before == fed.(picker := before.picker)
    ensures Chosen(before, fed.picker.value.0, fed.picker.value.1, o, roster, reply) ==
            Chosen(fed, fed.picker.value.0, fed.picker.value.1, o, roster, reply)
  {
    hide Runs.After, RosterRowsOf;
  }

  class ClientPump {
    const daemon: Host
    const lower: string -> string
    var picker: PickerState?
    var session: string
    var answers: bool
    var stdinOpen: bool
    var exit: Option<Exit>
    var size: Screen
    var trace: seq<Act>

    ghost predicate Valid()
      reads this, picker
    {
      picker != null ==> picker.lower == lower && picker.current == Some(daemon)
    }

    ghost function Value(): Loop
      reads this, picker
    {
      Loop(daemon, lower, if picker == null then None else Some((picker.Value(), session)), answers, stdinOpen, exit, size, trace)
    }

    constructor (daemon: Host, lower: string -> string, size: Screen)
      ensures Valid() && Value() == Init(daemon, lower, size)
    {
      this.daemon, this.lower, picker, session := daemon, lower, null, "";
      answers, stdinOpen, exit, trace := false, true, None, [];
      this.size := size;
    }

    method Send(m: Message)
      modifies this`trace
      ensures trace == old(trace) + [ToDaemon(m)]
    {
      trace := trace + [ToDaemon(m)];
    }

    method Paint(p: Pump.Paint)
      modifies this`trace
      ensures trace == old(trace) + [ToScreen(p)]
    {
      trace := trace + [ToScreen(p)];
    }

    method OnOpenPicker(entries: seq<SessionEntry>, name: string, roster: seq<R.RosterHost>)
      requires Valid() && exit == None
      modifies this
      ensures Valid() && fresh(picker) && Value() == Opened(old(Value()), entries, name, roster)
    {
      hide PickerRowsOf, RosterRowsOf, CurrentIndex;
      var assembly := BuildPickerRows(entries, daemon, roster);
      var state := new PickerState.WithCurrent(assembly.rows, Some(daemon), name, lower);
      state.adhoc := assembly.adhoc;
      Paint(EnterPicker);
      Paint(PickerFrame(state.Value(), size));
      answers := true;
      picker, session := state, name;
    }

    method ClosePicker(m: Message)
      requires picker != null
      modifies this`picker, this`answers, this`trace
      ensures picker == null && Value() == Closed(old(Value()), m)
    {
      Paint(LeavePicker);
      Send(m);
      picker := null;
      answers := false;
    }

    method Leave(host: Host, name: string, install: InstallPolicy)
      requires picker != null
      modifies this`picker, this`exit, this`trace
      ensures picker == null
      ensures Value() == With(old(Value()).(picker := None, exit := Some(ReconnectTo(host, OrMain(name), install))),
                              [ToScreen(LeavePicker)])
    {
      Paint(LeavePicker);
      picker := null;
      exit := Some(ReconnectTo(host, if name == "" then "main" else name, install));
    }

    /** Acts on what the picker's keys decided. */
    method OnOutcome(o: Outcome, roster: seq<R.RosterHost>, reply: KillReply)
      requires Valid() && exit == None && picker != null
      modifies this, picker
      ensures Valid() && (picker == null || picker == old(picker))
      ensures Value() == Chosen(old(Value()), old(picker.Value()), old(session), o, roster, reply)
    {
      hide RosterRowsOf, OthersReplaced, WithoutSession, Matching;
      match o {
        case Switch(name) =>
          ClosePicker(if name == session then Redraw else SwitchSession(name));
        case Cancel =>
          ClosePicker(Redraw);
        case Reconnect(host, name, install) =>
          Leave(host, name, install);
        case New(host, name, install) =>
          Leave(host, name, install);
        case Forget(_) =>
          var others := BuildRosterRows(roster, Some(daemon));
          picker.ReplaceOtherRows(Some(daemon), others.rows, others.adhoc);
          Paint(PickerFrame(picker.Value(), size));
          answers := true;
        case Kill(host, name) =>
          if reply.Killed? {
            if !(host == daemon && name == session) {
              picker.RemoveRow(host, name);
              Paint(PickerFrame(picker.Value(), size));
            }
          } else if !reply.Unexpected? {
            Paint(Note);
          }
      }
    }

    /** Forwards what was typed: the terminal's own reports as notices, the rest as input. */
    method Forward(chunk: seq<byte>)
      modifies this`trace
      ensures trace == old(trace) + Forwarded(chunk)
    {
      hide O.Scan;
      var buffer := new O.ChunkBuffer(chunk);
      var events := buffer.ScanOuterEvents();
      var kept := buffer.bytes;
      ghost var before := trace;
      assert events[0..] == events;
      for i := 0 to |events|
        invariant trace + Notices(events[i..]) == before + Notices(events)
      {
        assert events[i..][1..] == events[i + 1..];
        ConcatAssociative(trace, [ToDaemon(Outer(events[i]))], Notices(events[i + 1..]));
        Send(Outer(events[i]));
      }
      assert events[|events|..] == [] && trace + [] == trace;
      ForwardedOnto(before, chunk, kept, events);
      if kept != [] {
        Send(Input(kept));
      }
    }

    method OnStdin(chunk: seq<byte>, roster: seq<R.RosterHost>, reply: KillReply)
      requires Valid() && exit == None && stdinOpen && chunk != []
      modifies this, picker
      ensures Valid() && (picker == null || picker == old(picker))
      ensures Value() == Typed(old(Value()), chunk, roster, reply)
    {
      hide Pressed, KeysIn, Chosen, Forwarded;
      if picker == null {
        Forward(chunk);
      } else {
        var o := FeedPickerBytes(picker, chunk);
        if o.Some? {
          ChosenFrom(old(Value()), Value(), o.value, roster, reply);
          OnOutcome(o.value, roster, reply);
        } else {
          Paint(PickerFrame(picker.Value(), size));
        }
      }
    }

    /** One event of the loop. */
    method Handle(e: Event)
      requires Valid()
      modifies this, picker
      ensures Valid() && (picker == null || picker == old(picker) || fresh(picker))
      ensures Value() == Next(old(Value()), e)
    {
      hide Opened, Typed, Resolved, Matching;
      if exit.Some? {
        return;
      }
      match e {
        case DaemonOutput(bytes) =>
          if picker == null {
            Paint(Output(bytes));
          }
        case DaemonExited =>
          exit := Some(Follow);
        case DaemonFailed =>
          exit := Some(Failed);
        case DaemonClosed =>
          exit := Some(Ended);
        case OpenPicker(entries, name, roster) =>
          OnOpenPicker(entries, name, roster);
        case Stdin(chunk, roster, reply) =>
          if stdinOpen {
            if chunk == [] {
              stdinOpen := false;
            } else {
              OnStdin(chunk, roster, reply);
            }
          }
        case Resized(newSize) =>
          size := newSize;
          Send(Resize(size));
          if picker != null {
            Paint(PickerFrame(picker.Value(), size));
          }
        case Status(host, status) =>
          if answers && picker != null {
            var a := ResolveStatus(host, status);
            picker.ResolveHost(a.host, a.status, a.sessions);
            Paint(PickerFrame(picker.Value(), size));
          }
        case StatusesDone =>
          answers := false;
      }
    }
  }

  /** The loop itself, over the events as they come. */
  method RunPump(pump: ClientPump, events: seq<Event>)
    requires pump.Valid()
    modifies pump, pump.picker
    ensures pump.Valid() && pump.Value() == Run(old(pump.Value()), events)
  {
    hide Next;
    for i := 0 to |events|
      invariant pump.Valid() && pump.Value() == Run(old(pump.Value()), events[..i])
      invariant pump.picker == null || pump.picker == old(pump.picker) || fresh(pump.picker)
    {
      assert events[..i + 1][..i] == events[..i];
      pump.Handle(events[i]);
    }
    assert events[..|events|] == events;
  }
}
