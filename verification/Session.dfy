/**
 The lock screen as a whole: its state, one surface per output, and the handlers of main.c that
 connect them (main.c:113-180, main.c:182-300, main.c:354-391, main.c:481-529).

 damage_state is the last visible thing any handler does, so a handler of module Lock only records
 that it was called, and the repaint is made here when the handler returns.
 */
module Session {
  import opened Options
  import opened Utf8
  import opened Pipes
  import opened Deadlines
  import opened EventLoop
  import opened FdTable
  import opened Surfaces
  import opened Lock
  import opened Auth
  import opened Runs
  import M = Machine

  /** What an event about its surface does to it, whatever the surface's stage. */
  twostate predicate Heeds(s: Surface, a: Arrival, running: bool, snap: M.Snapshot, room: Room)
    reads s
  {
    match a
    case ConfigureSent(_, width, height) => old(s.created) ==> s.acked == Some(Size(width, height))
    case FrameEvent(_) =>
      && (old(s.frame && !s.dirty) ==> !s.frame)
      && (old(s.frame && s.dirty && s.Configured() && s.held != {1, 2}) && room == Room(true, true) ==> s.Current(snap))
    case ReleaseSent(_, buffer) =>
      && (buffer == 0 ==> !s.onScreen)
      && (buffer in old(s.held) ==> s.held == old(s.held) - {buffer})
    case GeometryEvent(_) => running ==> !s.rescaled && (old(s.frame) ==> s.dirty)
    case ScaleEvent(_, factor) =>
      factor > 0 ==> s.scale == factor && (running ==> !s.rescaled && (old(s.frame) ==> s.dirty))
    case _ => true
  }

  class Client {
    const state: State
    const replies: ReadEnd
    const displayFd: int
    const replyFd: int
    const termFd: int
    var surfaces: seq<Surface>
    var locked: bool
    /** Lock surfaces may exist. */
    ghost var exposed: bool
    ghost var repr: set<Surface>
    ghost var log: seq<Entry>
    /** The arrivals handled, and which of the outputs have their lock surface. */
    ghost var handled: seq<Arrival>
    ghost var outputs: seq<Output>

    constructor (now: Timespec, minute: nat, plan: seq<Outcome>, replies: ReadEnd, displayFd: int, replyFd: int,
            termFd: int)
      requires Normal(now)
      ensures Valid() && surfaces == [] && !exposed && !locked && log == [] && this.replies == replies
      ensures Now() == Status(Point(M.View(M.Initial(minute), []), [], replies.stream),
                              replies.plan, [], [], [], EMPTY, now)
      ensures fresh(state) && fresh(state.loop) && fresh(state.password) && fresh(state.password.buf)
              && fresh(state.requests)
    {
      state := new State(now, minute, plan);
      this.replies, this.displayFd, this.replyFd, this.termFd := replies, displayFd, replyFd, termFd;
      surfaces, exposed, locked, log, repr := [], false, false, [], {};
      handled, outputs := [], [];
    }

    ghost predicate Sane()
      reads this, repr
    {
      && (forall i, j :: 0 <= i < j < |surfaces| ==> surfaces[i] != surfaces[j])
      && (forall i :: 0 <= i < |surfaces| ==> surfaces[i] in repr)
      && |outputs| == |surfaces|
      && (forall i :: 0 <= i < |surfaces| ==>
            && surfaces[i].Valid() && (surfaces[i].created ==> exposed)
            && (outputs[i].created <==> surfaces[i].created))
    }

    /** Every surface shows `snap`, or will when its pending frame is done. */
    ghost predicate Painted(snap: M.Snapshot)
      reads this, repr
    {
      forall i :: 0 <= i < |surfaces| ==> surfaces[i] in repr && surfaces[i].Fresh(snap)
    }

    /** What holds between handlers. */
    ghost predicate Valid()
      reads this, repr, state, state.loop, state.password, state.password.buf, state.requests
    {
      state.Valid() && !state.damaged && Sane() && Painted(state.shown)
    }

    /** Where the process is now. */
    ghost function Now(): Status
      reads `handled, `outputs, `log, state, state.loop, replies
    {
      Status(Point(state.View(), state.posted, replies.stream), replies.plan, handled, outputs, log,
             state.loop.timers, state.loop.clock)
    }

    /** What was last painted, or is being painted, is what is visible of the state. */
    lemma PaintedIsVisible()
      requires Valid()
      ensures state.shown == Visible(state.View().core) && Painted(Visible(state.View().core))
    {
      assert EncodeAll(state.text) == EncodeAll(state.text);
      EncodeAllLength(state.text);
    }

    /** A surface that is not starved, and will not be by a draw now. */
    ghost predicate Supplied(surface: Surface, room: Room)
      reads surface
    {
      !surface.starved && surface.held != {1, 2} && room == Room(true, true)
    }

    /** The surfaces that are not starved, and will not be by a repaint now. */
    ghost function Safe(room: nat -> Room): set<int>
      reads this, repr
    {
      set j: int | 0 <= j < |surfaces| && surfaces[j] in repr && Supplied(surfaces[j], room(j))
    }

    ghost predicate NoneStarves(safe: set<int>)
      reads this, repr
    {
      forall j :: j in safe && 0 <= j < |surfaces| ==> surfaces[j] in repr && !surfaces[j].starved
    }

    /** `damage_state` */
    method DamageAll(snap: M.Snapshot, room: nat -> Room)
      requires Sane()
      modifies repr
      ensures Sane() && Painted(snap)
      ensures forall j :: 0 <= j < |surfaces| && old(surfaces[j].frame) ==> surfaces[j].dirty && surfaces[j].frame
      ensures forall j :: 0 <= j < |surfaces| && old(surfaces[j].Drawable()) && room(j) == Room(true, true) ==>
              surfaces[j].Current(snap)
      ensures NoneStarves(old(Safe(room)))
    {
      var i := |surfaces|;
      while i > 0
        invariant 0 <= i <= |surfaces| && Sane()
        invariant forall j :: 0 <= j < i ==> unchanged(surfaces[j])
        invariant forall j :: i <= j < |surfaces| ==>
                    && surfaces[j].Fresh(snap)
                    && (old(surfaces[j].frame) ==> surfaces[j].dirty && surfaces[j].frame)
                    && (old(surfaces[j].Drawable()) && room(j) == Room(true, true) ==> surfaces[j].Current(snap))
                    && (old(Supplied(surfaces[j], room(j))) ==> !surfaces[j].starved)
      {
        i := i - 1;
        surfaces[i].Damage(snap, room(i).background, room(i).indicator);
      }
    }

    /** The repaint a handler asked for, if it did. */
    method Repaint(room: nat -> Room)
      requires state.Wired(NULL) && Sane() && (state.damaged || Painted(state.shown))
      modifies state`damaged, repr
      ensures state.Wired(NULL) && !state.damaged && Sane() && Painted(state.shown)
      ensures Now() == old(Now())
      ensures NoneStarves(old(Safe(room)))
      ensures old(state.damaged) ==>
              forall j :: 0 <= j < |surfaces| && old(surfaces[j].Drawable()) && room(j) == Room(true, true) ==>
                surfaces[j].Current(state.Snap())
    {
      if state.damaged {
        RepaintNow(room);
      }
    }

    method RepaintNow(room: nat -> Room)
      requires state.Wired(NULL) && Sane() && state.damaged
      modifies state`damaged, repr
      ensures state.Wired(NULL) && !state.damaged && Sane() && Painted(state.shown)
      ensures Now() == old(Now())
      ensures NoneStarves(old(Safe(room)))
      ensures forall j :: 0 <= j < |surfaces| && old(surfaces[j].Drawable()) && room(j) == Room(true, true) ==>
                surfaces[j].Current(state.Snap())
    {
      state.damaged := false;
      DamageAll(state.Snap(), room);
    }

    /** Any signal to the state: one step of the machine, and the repaint it asked for. */
    method Signalled(s: Signal, room: nat -> Room) returns (ghost e: M.Event)
      requires Valid() && Addressed(s, |state.seats|)
      modifies state, state.loop, state.password`len, state.password.buf, state.requests, repr
      ensures Valid() && Meets(s, e) && Moves(old(Now()), [e], Now())
      ensures NoneStarves(old(Safe(room)))
      ensures |state.seats| == |old(state.seats)| + if s.SeatAnnounced? then 1 else 0
    {
      e := Stepped(s, room);
      Repaint(room);
    }

    method Stepped(s: Signal, ghost room: nat -> Room) returns (ghost e: M.Event)
      requires Valid() && Addressed(s, |state.seats|)
      modifies state, state.loop, state.password`len, state.password.buf, state.requests
      ensures state.Valid() && Sane() && (state.damaged || Painted(state.shown))
      ensures Meets(s, e) && Moves(old(Now()), [e], Now())
      ensures |state.seats| == |old(state.seats)| + if s.SeatAnnounced? then 1 else 0
      ensures Safe(room) == old(Safe(room))
    {
      e := SignalMoved(s);
    }

    method SignalMoved(s: Signal) returns (ghost e: M.Event)
      requires state.Valid() && Addressed(s, |state.seats|)
      modifies state, state.loop, state.password`len, state.password.buf, state.requests
      ensures state.Valid() && (state.damaged || (!old(state.damaged) && state.shown == old(state.shown)))
      ensures Meets(s, e) && Moves(old(Now()), [e], Now())
      ensures |state.seats| == |old(state.seats)| + if s.SeatAnnounced? then 1 else 0
    {
      ghost var before := Now();
      e := state.Handle(s);
      SignalStep(before, s, e, Now());
    }

    /** One turn of the timer pass, with the repaint its callback asked for. */
    method TimerTurn(cur: Address, now: Timespec, minute: nat, room: nat -> Room,
                     ghost t: Timers, ghost seen: seq<Timers>, ghost ran: seq<M.Event>)
      returns (next: Address, ghost e: seq<M.Event>)
      requires Valid() && Passed(t, seen, state.loop.timers, now, ran) && Nanos(now) <= Nanos(state.loop.clock)
      requires |seen| < |t.list| && cur == AtTurn(t, |seen|)
      modifies state, state.loop, state.password`len, state.password.buf, state.requests, repr
      ensures Valid() && Nanos(old(state.loop.clock)) <= Nanos(state.loop.clock)
      ensures Passed(t, seen + [old(state.loop.timers)], state.loop.timers, now, ran + e)
      ensures next == if |seen| + 1 < |t.list| then AtTurn(t, |seen| + 1) else NULL
      ensures M.Leads(old(state.View()), old(state.posted), e, state.View(), state.posted)
      ensures M.ArmedThroughout(old(state.View()), e)
      ensures NoneStarves(old(Safe(room)))
    {
      next, e := TurnTaken(cur, now, minute, room, t, seen, ran);
      Repaint(room);
    }

    method TurnTaken(cur: Address, now: Timespec, minute: nat, ghost room: nat -> Room,
                    ghost t: Timers, ghost seen: seq<Timers>, ghost ran: seq<M.Event>)
      returns (next: Address, ghost e: seq<M.Event>)
      requires Valid() && Passed(t, seen, state.loop.timers, now, ran) && Nanos(now) <= Nanos(state.loop.clock)
      requires |seen| < |t.list| && cur == AtTurn(t, |seen|)
      modifies state, state.loop, state.password`len, state.password.buf, state.requests
      ensures state.Valid() && Sane() && (state.damaged || Painted(state.shown))
      ensures Nanos(old(state.loop.clock)) <= Nanos(state.loop.clock)
      ensures Passed(t, seen + [old(state.loop.timers)], state.loop.timers, now, ran + e)
      ensures next == if |seen| + 1 < |t.list| then AtTurn(t, |seen| + 1) else NULL
      ensures M.Leads(old(state.View()), old(state.posted), e, state.View(), state.posted)
      ensures M.ArmedThroughout(old(state.View()), e) && Safe(room) == old(Safe(room))
    {
      next, e := TurnMoved(cur, now, minute, t, seen, ran);
    }

    method TurnMoved(cur: Address, now: Timespec, minute: nat,
                     ghost t: Timers, ghost seen: seq<Timers>, ghost ran: seq<M.Event>)
      returns (next: Address, ghost e: seq<M.Event>)
      requires state.Valid() && Passed(t, seen, state.loop.timers, now, ran) && Nanos(now) <= Nanos(state.loop.clock)
      requires |seen| < |t.list| && cur == AtTurn(t, |seen|)
      modifies state, state.loop, state.password`len, state.password.buf, state.requests
      ensures state.Valid() && (state.damaged || (!old(state.damaged) && state.shown == old(state.shown)))
      ensures Nanos(old(state.loop.clock)) <= Nanos(state.loop.clock)
      ensures Passed(t, seen + [old(state.loop.timers)], state.loop.timers, now, ran + e)
      ensures next == if |seen| + 1 < |t.list| then AtTurn(t, |seen| + 1) else NULL
      ensures M.Leads(old(state.View()), old(state.posted), e, state.View(), state.posted)
      ensures M.ArmedThroughout(old(state.View()), e)
    {
      ghost var view, posted := state.View(), state.posted;
      next, e := state.PassTurn(cur, now, minute, t, seen, ran);
      Turned(view, posted, e, state.View(), state.posted);
    }

    lemma Turned(v: M.View, before: seq<seq<CodePoint>>, e: seq<M.Event>, w: M.View, after: seq<seq<CodePoint>>)
      requires |e| <= 1 && M.Good(v.core) && M.Fits(v.core)
      requires if e == [] then w == v && after == before else w == M.Step(v, e[0]) && after == before + M.Posts(v, e[0])
      requires e != [] ==> M.Armed(v, e[0])
      ensures M.Leads(v, before, e, w, after) && M.Good(w.core) && M.Fits(w.core) && M.ArmedThroughout(v, e)
    {
      if e == [] {
        M.LeadsNowhere(v, before);
      } else {
        M.LeadsOne(v, before, e[0], w, after);
        M.StepGood(v, e[0]);
        M.ArmedNext(v, [], e[0]);
      }
    }

    /**
     The timer pass of `loop_poll`. The node behind the current one is read before the callback runs, and is
     still listed when its own turn comes; a node's memory is only used while the node is listed.
     */
    method TimerPass(minute: nat, room: (Address, nat) -> Room)
      returns (now: Timespec, ghost seen: seq<Timers>, ghost events: seq<M.Event>)
      requires Valid()
      modifies state, state.loop, state.password`len, state.password.buf, state.requests, repr
      ensures Valid() && Nanos(old(state.loop.clock)) <= Nanos(now) <= Nanos(state.loop.clock)
      ensures Passed(old(state.loop.timers), seen, state.loop.timers, now, events)
              && |seen| == |old(state.loop.timers).list|
      ensures M.Leads(old(state.View()), old(state.posted), events, state.View(), state.posted)
      ensures M.ArmedThroughout(old(state.View()), events)
      ensures Followed(old(state.loop.timers), seen, now, old(state.View()), events) && Normal(now)
    {
      ghost var t, view, before := state.loop.timers, state.View(), state.posted;
      var cur;
      now, cur := state.StartPass();
      seen, events := [], [];
      M.LeadsNowhere(view, before);
      while cur != NULL
        invariant Passing(t, seen, now, cur, events, view, before) && Normal(now)
        decreases |t.list| - |seen|
      {
        ghost var u := state.loop.timers;
        cur, events := NextTurn(cur, now, minute, room, t, seen, events, view, before);
        seen := seen + [u];
      }
    }

    /** A pass that started with `t` at `now` and is about to look at `cur`. */
    ghost predicate Passing(t: Timers, seen: seq<Timers>, now: Timespec, cur: Address, ran: seq<M.Event>,
                            view: M.View, before: seq<seq<CodePoint>>)
      reads this, repr, state, state.loop, state.password, state.password.buf, state.requests
    {
      && |seen| <= |t.list| && cur == (if |seen| < |t.list| then AtTurn(t, |seen|) else NULL)
      && Valid() && Nanos(now) <= Nanos(state.loop.clock) && Passed(t, seen, state.loop.timers, now, ran)
      && M.Leads(view, before, ran, state.View(), state.posted) && M.ArmedThroughout(view, ran)
      && Followed(t, seen, now, view, ran)
    }

    method NextTurn(cur: Address, now: Timespec, minute: nat, room: (Address, nat) -> Room, ghost t: Timers,
                    ghost seen: seq<Timers>, ghost ran: seq<M.Event>,
                    ghost view: M.View, ghost before: seq<seq<CodePoint>>)
      returns (next: Address, ghost events: seq<M.Event>)
      requires Passing(t, seen, now, cur, ran, view, before) && |seen| < |t.list|
      modifies state, state.loop, state.password`len, state.password.buf, state.requests, repr
      ensures Passing(t, seen + [old(state.loop.timers)], now, next, events, view, before)
    {
      ghost var w, mid, u := state.View(), state.posted, state.loop.timers;
      state.AlarmsAreTimers();
      next, events := TimerTurn(cur, now, minute, (i: nat) => room(cur, i), t, seen, ran);
      M.LeadsOnward(view, before, ran, w, mid, events, state.View(), state.posted);
      M.ArmedOnward(view, ran, w, events);
      FollowedNext(t, seen, u, now, view, ran, events);
      events := ran + events;
    }

    // ------------------------------------------------------------ outputs and surfaces

    /** `ext_session_lock_surface_v1_handle_configure` */
    method Configured(i: nat, width: nat, height: nat, room: Room)
      requires Valid() && i < |surfaces| && surfaces[i].created
      modifies surfaces[i]
      ensures Valid() && surfaces[i].acked == Some(Size(width, height))
    {
      surfaces[i].Configure(width, height, state.Snap(), room.background, room.indicator);
    }

    /** `surface_frame_handle_done` */
    method FrameDone(i: nat, room: Room)
      requires Valid() && i < |surfaces| && surfaces[i].frame
      modifies surfaces[i]
      ensures Valid()
      ensures old(!surfaces[i].dirty) ==> !surfaces[i].frame
      ensures old(surfaces[i].dirty && surfaces[i].Configured() && surfaces[i].held != {1, 2})
              && room == Room(true, true) ==>
                surfaces[i].Current(state.Snap())
    {
      surfaces[i].FrameDone(state.Snap(), room.background, room.indicator);
    }

    /** `buffer_release` */
    method Released(i: nat, buffer: int)
      requires Valid() && i < |surfaces| && buffer in surfaces[i].held
      modifies surfaces[i]
      ensures Valid() && surfaces[i].held == old(surfaces[i].held) - {buffer}
    {
      surfaces[i].Release(buffer);
    }

    /** `buffer_release` of the background. */
    method BackgroundReleased(i: nat)
      requires Valid() && i < |surfaces|
      modifies surfaces[i]
      ensures Valid() && !surfaces[i].onScreen && surfaces[i].held == old(surfaces[i].held)
    {
      surfaces[i].ReleaseBackground();
    }

    /** `handle_wl_output_geometry` */
    method GeometrySent(i: nat, room: Room)
      requires Valid() && i < |surfaces|
      modifies surfaces[i]
      ensures Valid() && (state.runDisplay ==> !surfaces[i].rescaled && (old(surfaces[i].frame) ==> surfaces[i].dirty))
    {
      surfaces[i].Geometry(state.runDisplay, state.Snap(), room.background, room.indicator);
    }

    /** `handle_wl_output_scale` */
    method ScaleSent(i: nat, factor: int, room: Room)
      requires Valid() && i < |surfaces| && factor > 0
      modifies surfaces[i]
      ensures Valid() && surfaces[i].scale == factor
      ensures state.runDisplay ==> !surfaces[i].rescaled && (old(surfaces[i].frame) ==> surfaces[i].dirty)
    {
      surfaces[i].SetScale(factor, state.runDisplay, state.Snap(), room.background, room.indicator);
    }

    /** `handle_wl_output_done`: an output announced before the main loop runs gets no lock surface here. */
    method OutputDone(i: nat)
      requires Valid() && i < |surfaces|
      modifies `exposed, `outputs, surfaces[i]
      ensures Valid() && outputs == OutputStep(old(outputs), state.runDisplay, |handled|, DoneSent(i))
      ensures surfaces[i].created <==> old(surfaces[i].created) || state.runDisplay
      ensures old(surfaces[i].created) || !state.runDisplay ==> exposed == old(exposed)
    {
      if !surfaces[i].created && state.runDisplay {
        CreateSurface(i, state.shown);
      }
    }

    /** `create_surface` */
    method CreateSurface(i: nat, ghost snap: M.Snapshot)
      requires Sane() && Painted(snap) && i < |surfaces| && !surfaces[i].created
      modifies `exposed, `outputs, surfaces[i]
      ensures Sane() && Painted(snap) && exposed && surfaces[i].created
      ensures outputs == old(outputs)[i := old(outputs)[i].(created := true)]
    {
      surfaces[i].Create();
      exposed := true;
      outputs := outputs[i := outputs[i].(created := true)];
    }

    /** `handle_global` for an output. */
    method OutputAdded()
      requires Valid()
      modifies `surfaces, `repr, `outputs
      ensures forall x :: x in repr ==> x in old(repr) || fresh(x)
      ensures Valid() && |surfaces| == |old(surfaces)| + 1 && old(surfaces) <= surfaces
      ensures outputs == OutputStep(old(outputs), state.runDisplay, |handled|, OutputAnnounced)
      ensures !surfaces[|old(surfaces)|].created
    {
      var surface := new Surface();
      Insert(surface);
    }

    /** `wl_list_insert` of a surface that has nothing yet. */
    method Insert(surface: Surface)
      requires Valid() && surface !in repr && surface.Valid() && !surface.created && !surface.Configured()
      modifies `surfaces, `repr, `outputs
      ensures Valid() && surfaces == old(surfaces) + [surface] && repr == old(repr) + {surface}
      ensures outputs == old(outputs) + [Output(|handled|, false)]
    {
      surfaces, repr := surfaces + [surface], repr + {surface};
      outputs := outputs + [Output(|handled|, false)];
      assert Painted(state.shown);
    }

    /** `handle_global_remove` */
    method OutputRemoved(i: nat)
      requires Valid() && i < |surfaces|
      modifies `surfaces, `outputs
      ensures Valid() && surfaces == old(surfaces)[..i] + old(surfaces)[i + 1..]
      ensures outputs == OutputStep(old(outputs), state.runDisplay, |handled|, OutputGone(i))
    {
      surfaces := surfaces[..i] + surfaces[i + 1..];
      outputs := outputs[..i] + outputs[i + 1..];
    }

    /** Events about an output's surface. Those a compositor cannot send, given what it was sent, do not arrive. */
    method OnSurface(i: nat, a: Arrival, room: Room)
      requires Valid() && i < |surfaces|
      modifies surfaces[i]
      ensures Valid() && Heeds(surfaces[i], a, state.runDisplay, state.Snap(), room)
    {
      match a {
        case ConfigureSent(_, width, height) =>
          if surfaces[i].created {
            Configured(i, width, height, room);
          }
        case FrameEvent(_) =>
          if surfaces[i].frame {
            FrameDone(i, room);
          }
        case ReleaseSent(_, buffer) =>
          if buffer == 0 {
            BackgroundReleased(i);
          } else if 1 <= buffer < 3 && surfaces[i].pool[buffer].busy {
            Released(i, buffer);
          }
        case GeometryEvent(_) =>
          GeometrySent(i, room);
        case ScaleEvent(_, factor) =>
          if factor > 0 {
            ScaleSent(i, factor, room);
          }
        case _ =>
      }
    }

    /** An event about a surface does that surface what it should and leaves the others alone; outputs come and go. */
    twostate predicate Received(a: Arrival, room: Room)
      reads this, repr, state, state.password
    {
      var i := SurfaceOf(a);
      && (AboutSurface(a) && i < |old(surfaces)| ==>
            && surfaces == old(surfaces) && surfaces[i] in repr
            && Heeds(surfaces[i], a, state.runDisplay, state.Snap(), room)
            && forall j :: 0 <= j < |surfaces| && j != i ==> surfaces[j] in repr && unchanged(surfaces[j]))
      && (a.OutputAnnounced? ==> |surfaces| == |old(surfaces)| + 1 && old(surfaces) <= surfaces)
      && (a.OutputGone? && i < |old(surfaces)| ==> surfaces == old(surfaces)[..i] + old(surfaces)[i + 1..])
      && (a.DoneSent? && i < |old(surfaces)| && state.runDisplay ==>
            surfaces == old(surfaces) && surfaces[i] in repr && surfaces[i].created)
    }

    /** Outputs come, are complete, and go. */
    method OnOutput(a: Arrival, room: Room)
      requires Valid()
      modifies `surfaces, `repr, `exposed, `outputs, repr
      ensures forall x :: x in repr ==> x in old(repr) || fresh(x)
      ensures Valid() && (!state.runDisplay ==> exposed == old(exposed)) && Received(a, room)
      ensures outputs == OutputStep(old(outputs), state.runDisplay, |handled|, a)
    {
      if a.OutputAnnounced? {
        OutputAdded();
      } else {
        OnKnown(a, room);
      }
    }

    /** Something about an output that was announced. */
    method OnKnown(a: Arrival, room: Room)
      requires Valid() && !a.OutputAnnounced?
      modifies `surfaces, `exposed, `outputs, repr
      ensures Valid() && (!state.runDisplay ==> exposed == old(exposed)) && Received(a, room)
      ensures outputs == OutputStep(old(outputs), state.runDisplay, |handled|, a)
    {
      if AboutSurface(a) {
        OnAbout(a, room);
      } else {
        OnListed(a, room);
      }
    }

    method OnAbout(a: Arrival, room: Room)
      requires Valid() && AboutSurface(a)
      modifies repr
      ensures Valid() && Received(a, room)
    {
      if SurfaceOf(a) < |surfaces| {
        OnSurface(SurfaceOf(a), a, room);
      }
    }

    /** An output goes, or is complete. */
    method OnListed(a: Arrival, ghost room: Room)
      requires Valid() && !a.OutputAnnounced? && !AboutSurface(a)
      modifies `surfaces, `exposed, `outputs, repr
      ensures Valid() && (!state.runDisplay ==> exposed == old(exposed)) && Received(a, room)
      ensures outputs == OutputStep(old(outputs), state.runDisplay, |handled|, a)
    {
      if a.OutputGone? {
        if a.surface < |surfaces| {
          OutputRemoved(a.surface);
        }
      } else if a.DoneSent? {
        if a.surface < |surfaces| {
          OutputDone(a.surface);
        }
      }
    }

    /** One event from the compositor. */
    method Arrive(m: Message) returns (finished: bool, ghost events: seq<M.Event>)
      requires Valid()
      modifies `surfaces, `repr, `exposed, `locked, `log, `handled, `outputs, repr
      modifies state, state.loop, state.password`len, state.password.buf, state.requests
      ensures Valid() && ArrivalDone(old(Now()), m.arrival, events, Now())
      ensures finished <==> Kills(m.arrival)
      ensures !m.arrival.Told? ==> Received(m.arrival, m.room(0))
      ensures forall x :: x in repr ==> x in old(repr) || fresh(x)
      ensures (locked <==> old(locked) || m.arrival.LockedSent?)
      ensures !old(state.runDisplay) ==> exposed == old(exposed)
    {
      finished := Kills(m.arrival);
      if m.arrival.Told? {
        events := ArriveSignal(m);
      } else {
        events := [];
        ArriveOther(m);
      }
    }

    method ArriveSignal(m: Message) returns (ghost events: seq<M.Event>)
      requires Valid() && m.arrival.Told?
      modifies `handled, state, state.loop, state.password`len, state.password.buf, state.requests, repr
      ensures Valid() && ArrivalDone(old(Now()), m.arrival, events, Now())
    {
      ghost var before := Now();
      events := OnSignal(m.arrival.signal, m.room);
      SignalArrived(before, m.arrival.signal, events, Now());
      handled := handled + [m.arrival];
    }

    method ArriveOther(m: Message)
      requires Valid() && !m.arrival.Told?
      modifies `surfaces, `repr, `exposed, `locked, `log, `handled, `outputs, repr
      ensures forall x :: x in repr ==> x in old(repr) || fresh(x)
      ensures Valid() && ArrivalDone(old(Now()), m.arrival, [], Now()) && Received(m.arrival, m.room(0))
      ensures (!state.runDisplay ==> exposed == old(exposed)) && (locked <==> old(locked) || m.arrival.LockedSent?)
    {
      ghost var before := Now();
      OnOther(m.arrival, m.room(0));
      handled := handled + [m.arrival];
      OtherArrived(before, m.arrival, Now());
    }

    /** A signal from a seat that was announced. */
    method OnSignal(s: Signal, room: nat -> Room) returns (ghost events: seq<M.Event>)
      requires Valid()
      modifies state, state.loop, state.password`len, state.password.buf, state.requests, repr
      ensures Valid() && SignalDone(old(Now()), s, events, Now())
    {
      ghost var before := Now();
      if s.TermSignal? || !Addressed(s, |state.seats|) {
        events := [];
        SignalDropped(before, s);
      } else {
        ghost var e := Signalled(s, room);
        events := [e];
        SignalTaken(before, s, e, Now());
      }
    }

    /** The session is locked, or something about an output. */
    method OnOther(a: Arrival, room: Room)
      requires Valid() && !a.Told?
      modifies `surfaces, `repr, `exposed, `locked, `log, `outputs, repr
      ensures forall x :: x in repr ==> x in old(repr) || fresh(x)
      ensures outputs == OutputStep(old(outputs), state.runDisplay, |handled|, a)
      ensures Valid() && (!state.runDisplay ==> exposed == old(exposed)) && Received(a, room)
      ensures (locked <==> old(locked) || a.LockedSent?) && log == old(log) + Heard(a)
    {
      if a.LockedSent? {
        locked := true;
        log := log + [LockedReceived];
      } else {
        OnOutput(a, room);
      }
    }

    /** The messages handled so far. */
    ghost predicate Dispatching(s: Status, messages: seq<Message>, n: nat, finished: bool, events: seq<M.Event>,
                                was: bool, visible: bool)
      reads this, repr, state, state.loop, state.password, state.password.buf, state.requests, replies
    {
      && Valid() && Handled(s, messages, n, finished, events, Now())
      && (locked <==> was || |log| > |s.log|) && (!state.runDisplay ==> exposed == visible)
    }

    method ArriveNext(messages: seq<Message>, i: nat, ghost s: Status, ghost before: seq<M.Event>,
                      ghost was: bool, ghost visible: bool)
      returns (finished: bool, ghost events: seq<M.Event>)
      requires i < |messages| && Dispatching(s, messages, i, false, before, was, visible)
      modifies `surfaces, `repr, `exposed, `locked, `log, `handled, `outputs, repr
      modifies state, state.loop, state.password`len, state.password.buf, state.requests
      ensures forall x :: x in repr ==> x in old(repr) || fresh(x)
      ensures Dispatching(s, messages, i + 1, finished, events, was, visible)
    {
      ghost var t := Now();
      finished, events := Arrive(messages[i]);
      HandledNext(s, messages, i, before, t, finished, events, Now());
      events := before + events;
    }

    /** `wl_display_dispatch` and `wl_display_roundtrip`: events are handled until one ends the process. */
    method Dispatch(messages: seq<Message>) returns (finished: bool, ghost events: seq<M.Event>)
      requires Valid()
      modifies `surfaces, `repr, `exposed, `locked, `log, `handled, `outputs, repr
      modifies state, state.loop, state.password`len, state.password.buf, state.requests
      ensures forall x :: x in repr ==> x in old(repr) || fresh(x)
      ensures Valid() && (finished <==> AnyKills(messages))
      ensures !finished ==> ArrivalsDone(old(Now()), Arrivals(messages), events, Now())
      ensures OnlyLocked(old(log), log) && (locked <==> old(locked) || |log| > |old(log)|)
      ensures (!old(state.runDisplay) ==> exposed == old(exposed)) && state.runDisplay == old(state.runDisplay)
    {
      ghost var s, was, visible := Now(), locked, exposed;
      finished, events := false, [];
      HandledNone(s, messages);
      var i := 0;
      while i < |messages| && !finished
        invariant forall x :: x in repr ==> x in old(repr) || fresh(x)
        invariant Dispatching(s, messages, i, finished, events, was, visible)
      {
        finished, events := ArriveNext(messages, i, s, events, was, visible);
        i := i + 1;
      }
      HandledAll(s, messages, i, finished, events, Now());
    }

    // ------------------------------------------------------------ callbacks

    method DispatchFailed()
      requires Valid()
      modifies state`runDisplay
      ensures Valid() && Moves(old(Now()), [M.DisplayFailed], Now())
    {
      ghost var before := Now();
      state.StopRunning();
      M.StepGood(before.at.view, M.DisplayFailed);
      MovesOne(before, M.DisplayFailed, Now());
    }

    /** `display_in` */
    method OnDisplay(r: Round) returns (exited: bool, ghost events: seq<M.Event>)
      requires Valid()
      modifies `surfaces, `repr, `exposed, `locked, `log, `handled, `outputs, repr
      modifies state, state.loop, state.password`len, state.password.buf, state.requests
      ensures forall x :: x in repr ==> x in old(repr) || fresh(x)
      ensures (exited <==> CallAborts(DisplayIn, r, old(Now()))) && OnlyLocked(old(log), log)
      ensures !exited ==> Valid() && CallDone(old(Now()), DisplayIn, r, events, Now())
    {
      ghost var s := Now();
      exited, events := Dispatch(r.messages);
      if !exited {
        events := Displayed(r, s, events);
      }
    }

    /** The end of `display_in`. */
    method Displayed(r: Round, ghost s: Status, ghost ran: seq<M.Event>) returns (ghost events: seq<M.Event>)
      requires Valid() && ArrivalsDone(s, Arrivals(r.messages), ran, Now()) && s.at.stream == replies.stream
      requires !AnyKills(r.messages)
      modifies state`runDisplay
      ensures Valid() && CallDone(s, DisplayIn, r, events, Now())
    {
      ghost var t := Now();
      events := ran;
      if r.dispatched {
        DisplayedWell(s, r, ran, t);
      } else {
        DispatchFailed();
        DisplayedBadly(s, r, ran, t, Now());
        events := ran + [M.DisplayFailed];
      }
    }

    /** `reply_in` when there is something to read. */
    method ReplyReady(room: nat -> Room) returns (exited: bool, ghost e: M.Event)
      requires Valid()
      modifies state, state.loop, replies, repr
      ensures exited <==> TakeReply(old(replies.plan), old(replies.stream)).result != Complete
      ensures !exited ==> Valid() && e.ReplyRead? && Moves(old(Now()), [e], Now())
      ensures !exited ==> replies.plan == TakeReply(old(replies.plan), old(replies.stream)).plan
      ensures NoneStarves(old(Safe(room)))
    {
      exited, e := ReplyTaken(room);
      if !exited {
        Repaint(room);
      }
    }

    method ReplyTaken(ghost room: nat -> Room) returns (exited: bool, ghost e: M.Event)
      requires Valid()
      modifies state, state.loop, replies
      ensures exited <==> TakeReply(old(replies.plan), old(replies.stream)).result != Complete
      ensures !exited ==> state.Valid() && Sane() && (state.damaged || Painted(state.shown))
      ensures !exited ==> e.ReplyRead? && Moves(old(Now()), [e], Now())
      ensures !exited ==> replies.plan == TakeReply(old(replies.plan), old(replies.stream)).plan
      ensures Safe(room) == old(Safe(room)) && NoneStarves(Safe(room))
    {
      exited, e := ReplyMoved();
    }

    method ReplyMoved() returns (exited: bool, ghost e: M.Event)
      requires state.Valid()
      modifies state, state.loop, replies
      ensures exited <==> TakeReply(old(replies.plan), old(replies.stream)).result != Complete
      ensures !exited ==> state.Valid() && (state.damaged || (!old(state.damaged) && state.shown == old(state.shown)))
      ensures !exited ==> e.ReplyRead? && Moves(old(Now()), [e], Now())
      ensures !exited ==> replies.plan == TakeReply(old(replies.plan), old(replies.stream)).plan
    {
      ghost var s := Now();
      exited, e := state.HandleReply(replies);
      if !exited {
        M.StepGood(s.at.view, e);
        MovesReading(s, e, Now());
      }
    }

    /** `reply_in` */
    method OnReply(mask: Mask, r: Round) returns (exited: bool, ghost events: seq<M.Event>)
      requires Valid() && mask == r.reply && Ready(PollFd(0, POLLIN, mask))
      modifies state, state.loop, replies, repr
      ensures exited <==> CallAborts(ReplyIn, r, old(Now()))
      ensures !exited ==> Valid() && CallDone(old(Now()), ReplyIn, r, events, Now())
    {
      events := [];
      if mask & POLLIN != 0 {
        ghost var e;
        exited, e := ReplyReady(r.room);
        events := [e];
      } else {
        exited := mask & (POLLHUP | POLLERR) != 0;
        ReadyWithoutInput(mask);
      }
    }

    /** `term_in` */
    method OnTerm(r: Round) returns (ghost events: seq<M.Event>)
      requires Valid()
      modifies state, state.loop, state.password`len, state.password.buf, state.requests, repr
      ensures Valid() && CallDone(old(Now()), TermIn, r, events, Now())
    {
      ghost var e := Signalled(TermSignal, r.room);
      events := [e];
    }

    method OnPipe(c: Call, r: Round) returns (exited: bool, ghost events: seq<M.Event>)
      requires Valid() && CallFits(c, r) && c.handler != DisplayIn
      modifies state, state.loop, state.password`len, state.password.buf, state.requests, replies, repr
      ensures exited <==> CallAborts(c.handler, r, old(Now()))
      ensures !exited ==> Valid() && CallDone(old(Now()), c.handler, r, events, Now())
    {
      if c.handler == ReplyIn {
        exited, events := OnReply(c.revents, r);
      } else {
        exited := false;
        events := OnTerm(r);
      }
    }

    /** One callback of a ready descriptor. */
    method Callback(c: Call, r: Round) returns (exited: bool, ghost events: seq<M.Event>)
      requires Valid() && CallFits(c, r)
      modifies `surfaces, `repr, `exposed, `locked, `log, `handled, `outputs, repr
      modifies state, state.loop, state.password`len, state.password.buf, state.requests, replies
      ensures forall x :: x in repr ==> x in old(repr) || fresh(x)
      ensures (exited <==> CallAborts(c.handler, r, old(Now()))) && OnlyLocked(old(log), log)
      ensures !exited ==> Valid() && CallDone(old(Now()), c.handler, r, events, Now())
    {
      if c.handler == DisplayIn {
        exited, events := OnDisplay(r);
      } else {
        exited, events := OnPipe(c, r);
      }
    }

    method CallNext(calls: seq<Call>, i: nat, r: Round, ghost s: Status, ghost before: Trace<seq<M.Event>>)
      returns (exited: bool, ghost made: Trace<seq<M.Event>>)
      requires Valid() && CallsOf(calls, r) && r.flushed && r.polled
      requires i < |calls| && CallsMade(s, r, i, before, Now())
      modifies `surfaces, `repr, `exposed, `locked, `log, `handled, `outputs, repr
      modifies state, state.loop, state.password`len, state.password.buf, state.requests, replies
      ensures forall x :: x in repr ==> x in old(repr) || fresh(x)
      ensures if exited then Ends(Aborted, s, r, Now()) else Valid() && CallsMade(s, r, i + 1, made, Now())
    {
      ghost var t := Now();
      ghost var events;
      exited, events := Callback(calls[i], r);
      made := before;
      if exited {
        AbortsIn(r, before, Now());
      } else {
        CallsNext(s, r, i, before, t, events, Now());
        made := Then(before, events, Now());
      }
    }

    /** The callbacks of one poll, in registration order, until one ends the process. */
    method Callbacks(calls: seq<Call>, r: Round) returns (exited: bool, ghost made: Trace<seq<M.Event>>)
      requires Valid() && CallsOf(calls, r) && r.flushed && r.polled
      modifies `surfaces, `repr, `exposed, `locked, `log, `handled, `outputs, repr
      modifies state, state.loop, state.password`len, state.password.buf, state.requests, replies
      ensures forall x :: x in repr ==> x in old(repr) || fresh(x)
      ensures if exited then Ends(Aborted, old(Now()), r, Now())
              else Valid() && CallsMade(old(Now()), r, |DueCalls(r)|, made, Now())
    {
      ghost var s := Now();
      exited, made := false, Begun(s);
      var i := 0;
      while i < |calls| && !exited
        invariant forall x :: x in repr ==> x in old(repr) || fresh(x)
        invariant 0 <= i <= |calls|
        invariant if exited then Ends(Aborted, s, r, Now()) else Valid() && CallsMade(s, r, i, made, Now())
      {
        exited, made := CallNext(calls, i, r, s, made);
        i := i + 1;
      }
    }

    /** The timer pass as the end of `loop_poll`. */
    method FireTimers(r: Round) returns (now: Timespec, ghost seen: seq<Timers>, ghost events: seq<M.Event>)
      requires Valid()
      modifies state, state.loop, state.password`len, state.password.buf, state.requests, repr
      ensures Valid() && PassDone(old(Now()), seen, now, events, Now())
      ensures Carries(old(state.loop.timers), old(state.View()))
    {
      ghost var s := Now();
      state.AlarmsAreTimers();
      now, seen, events := TimerPass(r.minute, r.timerRoom);
      state.AlarmsAreTimers();
      TimersMove(s, seen, now, events, Now());
    }

    /** The callbacks that are due, then one timer pass. */
    method HandleRound(calls: seq<Call>, r: Round, ghost ms: int) returns (left: Left, ghost turn: Turn)
      requires Valid() && CallsOf(calls, r) && r.flushed && r.polled && SleptFor(ms)
      modifies `surfaces, `repr, `exposed, `locked, `log, `handled, `outputs, repr
      modifies state, state.loop, state.password`len, state.password.buf, state.requests, replies
      ensures forall x :: x in repr ==> x in old(repr) || fresh(x)
      ensures (left == StillRunning || left == Aborted) && (left != Aborted ==> Valid())
      ensures TurnLeft(left, old(Now()), r, turn, Now())
    {
      ghost var made;
      var exited;
      turn := NoTurn(Now());
      exited, made := Callbacks(calls, r);
      left := Aborted;
      if !exited {
        AbortsNowhere(r, made);
        ghost var seen, events;
        var now;
        now, seen, events := FireTimers(r);
        left, turn := StillRunning, Turn(ms, made, seen, now, events);
      }
    }

    // ------------------------------------------------------------ the main loop

    /** The timeout for `poll`. */
    method Timeout() returns (ms: int)
      requires Valid()
      modifies state.loop`clock
      ensures Valid() && SleptFor(ms) && Later(old(Now()), Now())
    {
      ms := state.loop.PollTimeout();
      state.AlarmsAreTimers();
    }

    /** `ms` is the timeout for the alarms that are armed. */
    ghost predicate SleptFor(ms: int)
      reads state, state.loop
    {
      var t := state.loop.timers;
      Carries(t, state.View()) && Timed(t, state.loop.clock) && IsTimeout(ms, Expiries(t), state.loop.clock)
    }

    ghost predicate Listening(table: Table)
      reads table, table.fds
    {
      table.Valid() && table.Registrations() == Registered(displayFd, replyFd, termFd)
    }

    /** `poll`, and which callbacks are due. */
    method PollFds(r: Round, table: Table) returns (calls: seq<Call>)
      requires Valid() && Listening(table)
      modifies table.fds
      ensures Valid() && Now() == old(Now()) && Listening(table) && CallsOf(calls, r)
    {
      table.Poll([r.display, r.reply, r.term]);
      calls := table.Dispatch();
      DispatchedCalls(displayFd, replyFd, termFd, r);
    }

    /** `loop_poll` after `poll`: the callbacks that are due, then the timers. */
    method DispatchFds(r: Round, table: Table, ghost ms: int) returns (left: Left, ghost turn: Turn)
      requires Valid() && Listening(table) && r.flushed && r.polled && SleptFor(ms)
      modifies `surfaces, `repr, `exposed, `locked, `log, `handled, `outputs, repr
      modifies state, state.loop, state.password`len, state.password.buf, state.requests, replies, table.fds
      ensures forall x :: x in repr ==> x in old(repr) || fresh(x)
      ensures Listening(table) && (left == StillRunning || left == Aborted)
      ensures left != Aborted ==> Valid()
      ensures TurnLeft(left, old(Now()), r, turn, Now())
    {
      var calls := PollFds(r, table);
      left, turn := HandleRound(calls, r, ms);
    }

    /** `loop_poll` */
    method LoopPoll(r: Round, table: Table) returns (left: Left, ghost turn: Turn)
      requires Valid() && Listening(table) && r.flushed
      modifies `surfaces, `repr, `exposed, `locked, `log, `handled, `outputs, repr
      modifies state, state.loop, state.password`len, state.password.buf, state.requests, replies, table.fds
      ensures forall x :: x in repr ==> x in old(repr) || fresh(x)
      ensures Listening(table) && (left != Aborted ==> Valid())
      ensures TurnLeft(left, old(Now()), r, turn, Now())
    {
      ghost var s := Now();
      var ms := Timeout();
      if r.polled {
        ghost var t := Now();
        left, turn := DispatchFds(r, table, ms);
        RoundLater(left, s, t, r, turn, Now());
      } else {
        left, turn := PollFailed, NoTurn(s);
      }
    }

    /** One turn of the main loop: flush, then poll. */
    method MainTurn(r: Round, table: Table) returns (left: Left, ghost turn: Turn)
      requires Valid() && Listening(table)
      modifies `surfaces, `repr, `exposed, `locked, `log, `handled, `outputs, repr
      modifies state, state.loop, state.password`len, state.password.buf, state.requests, replies, table.fds
      ensures forall x :: x in repr ==> x in old(repr) || fresh(x)
      ensures Listening(table) && (left != Aborted ==> Valid())
      ensures TurnLeft(left, old(Now()), r, turn, Now())
    {
      if r.flushed {
        left, turn := LoopPoll(r, table);
      } else {
        left, turn := FlushFailed, NoTurn(Now());
      }
    }

    /** The loop has made `n` turns since `s`, or has ended. */
    ghost predicate Looping(left: Left, s: Status, rounds: seq<Round>, n: nat, turns: Trace<Turn>, table: Table)
      reads this, repr, state, state.loop, state.password, state.password.buf, state.requests, replies, table, table.fds
    {
      n <= |rounds| && Listening(table) && (left != Aborted ==> Valid()) && RunningOn(left, s, rounds, n, turns, Now())
    }

    method TurnNext(rounds: seq<Round>, i: nat, table: Table, ghost s: Status, ghost before: Trace<Turn>)
      returns (left: Left, ghost turns: Trace<Turn>)
      requires i < |rounds| && state.runDisplay && Looping(StillRunning, s, rounds, i, before, table)
      modifies `surfaces, `repr, `exposed, `locked, `log, `handled, `outputs, repr
      modifies state, state.loop, state.password`len, state.password.buf, state.requests, replies, table.fds
      ensures forall x :: x in repr ==> x in old(repr) || fresh(x)
      ensures Looping(left, s, rounds, i + 1, turns, table)
    {
      ghost var t := Now();
      ghost var turn;
      left, turn := MainTurn(rounds[i], table);
      RunsOn(left, s, rounds, i, before, t, turn, Now());
      turns := if left == StillRunning then Then(before, turn, Now()) else before;
    }

    /** The main loop. */
    method Run(rounds: seq<Round>, table: Table) returns (left: Left, ghost turns: Trace<Turn>)
      requires Valid() && Listening(table)
      modifies `surfaces, `repr, `exposed, `locked, `log, `handled, `outputs, repr
      modifies state, state.loop, state.password`len, state.password.buf, state.requests, replies, table.fds
      ensures forall x :: x in repr ==> x in old(repr) || fresh(x)
      ensures (left != Aborted ==> Valid())
      ensures RunMade(left, rounds, turns, Now()) && Begin(turns) == old(Now())
    {
      ghost var s := Now();
      var i;
      left, i, turns := Turns(rounds, table);
      RunEnds(left, s, rounds, i, turns, Now());
      left := if left == StillRunning && !state.runDisplay then Cleared else left;
    }

    method Turns(rounds: seq<Round>, table: Table) returns (left: Left, i: nat, ghost turns: Trace<Turn>)
      requires Valid() && Listening(table)
      modifies `surfaces, `repr, `exposed, `locked, `log, `handled, `outputs, repr
      modifies state, state.loop, state.password`len, state.password.buf, state.requests, replies, table.fds
      ensures forall x :: x in repr ==> x in old(repr) || fresh(x)
      ensures Looping(left, old(Now()), rounds, i, turns, table)
      ensures left != StillRunning || i == |rounds| || !state.runDisplay
    {
      ghost var s := Now();
      left, turns := StillRunning, Begun(s);
      i := 0;
      while i < |rounds| && left == StillRunning && state.runDisplay
        invariant forall x :: x in repr ==> x in old(repr) || fresh(x)
        invariant Looping(left, s, rounds, i, turns, table)
      {
        left, turns := TurnNext(rounds, i, table, s, turns);
        i := i + 1;
      }
    }

    // ------------------------------------------------------------ main

    /** What main relies on until it enters the loop. */
    ghost predicate Starting()
      reads this, repr, state, state.loop, state.password, state.password.buf, state.requests
    {
      Valid() && !state.runDisplay && InOrder(log) && (locked <==> LockedReceived in log) && UnlockRequested !in log
    }

    /** The events of one batch before the loop runs. */
    method Receive(b: Batch) returns (failed: bool, ghost events: seq<M.Event>)
      requires Starting()
      modifies `surfaces, `repr, `exposed, `locked, `log, `handled, `outputs, repr
      modifies state, state.loop, state.password`len, state.password.buf, state.requests
      ensures forall x :: x in repr ==> x in old(repr) || fresh(x)
      ensures Starting() && exposed == old(exposed) && (failed <==> Fails(b))
      ensures !failed ==> ArrivalsDone(old(Now()), Arrivals(b.messages), events, Now())
      ensures !failed ==> (locked <==> old(locked) || Grants(b))
      ensures OnlyLocked(old(log), log)
    {
      ghost var before := log;
      var finished;
      finished, events := Dispatch(b.messages);
      InOrderOnward(before, log);
      failed := finished || !b.dispatched;
    }

    /** Every output has its lock surface. */
    ghost predicate Exposed()
      reads this, repr
    {
      forall i :: 0 <= i < |surfaces| ==> surfaces[i] in repr && surfaces[i].created
    }

    /** `create_surface` for every output known by then. */
    method CreateAll()
      requires Starting() && !exposed
      modifies `exposed, `outputs, repr
      ensures Starting() && Exposed() && Now() == Covered(old(Now()))
    {
      exposed := true;
      ghost var before := outputs;
      var i: nat := |surfaces|;
      while i > 0
        invariant Creating(i, before)
      {
        i := i - 1;
        CreateOne(i, before);
      }
      assert outputs == AllCreated(before);
    }

    /** The surfaces from `i` on have been created, and no others. */
    ghost predicate Creating(i: nat, before: seq<Output>)
      reads this, repr, state, state.loop, state.password, state.password.buf, state.requests
    {
      && Starting() && exposed && i <= |surfaces| && |before| == |outputs|
      && (forall j :: 0 <= j < |surfaces| ==> (outputs[j].created <==> i <= j))
      && outputs == before[..i] + AllCreated(before)[i..]
    }

    method CreateOne(i: nat, ghost before: seq<Output>)
      requires i < |surfaces| && Creating(i + 1, before)
      modifies `exposed, `outputs, surfaces[i]
      ensures Creating(i, before)
    {
      CreateSurface(i, state.shown);
    }

    /** The wait so far, since `s`. */
    ghost predicate Awaiting(s: Status, was: bool, waiting: seq<Batch>, n: nat, failed: bool, events: seq<M.Event>)
      reads this, repr, state, state.loop, state.password, state.password.buf, state.requests, replies
    {
      Starting() && WaitedFor(s, was, waiting, n, failed, locked, events, Now()) && s.log <= log
    }

    method ReceiveNext(waiting: seq<Batch>, i: nat, ghost s: Status, ghost was: bool, ghost before: seq<M.Event>)
      returns (failed: bool, ghost events: seq<M.Event>)
      requires !locked && i < |waiting| && Awaiting(s, was, waiting, i, false, before)
      modifies `surfaces, `repr, `exposed, `locked, `log, `handled, `outputs, repr
      modifies state, state.loop, state.password`len, state.password.buf, state.requests
      ensures forall x :: x in repr ==> x in old(repr) || fresh(x)
      ensures Awaiting(s, was, waiting, i + 1, failed, events)
    {
      ghost var t := Now();
      failed, events := Receive(waiting[i]);
      WaitedNext(s, was, waiting, i, before, t, failed, locked, events, Now());
      events := before + events;
    }

    /** Dispatches until the compositor says the session is locked. */
    method AwaitLock(waiting: seq<Batch>) returns (failed: bool, ghost events: seq<M.Event>)
      requires Starting()
      modifies `surfaces, `repr, `exposed, `locked, `log, `handled, `outputs, repr
      modifies state, state.loop, state.password`len, state.password.buf, state.requests
      ensures forall x :: x in repr ==> x in old(repr) || fresh(x)
      ensures Starting() && old(log) <= log
      ensures failed <==> WaitFor(old(locked), waiting).Failing?
      ensures !failed ==> (locked <==> WaitFor(old(locked), waiting).After?)
      ensures !failed && locked ==>
                ArrivalsDone(old(Now()), Sent(waiting[..WaitFor(old(locked), waiting).batches]), events, Now())
    {
      ghost var s, was := Now(), locked;
      failed, events := false, [];
      WaitedNone(s, was, waiting);
      var i := 0;
      while !locked && i < |waiting| && !failed
        invariant forall x :: x in repr ==> x in old(repr) || fresh(x)
        invariant Awaiting(s, was, waiting, i, failed, events)
      {
        failed, events := ReceiveNext(waiting, i, s, was, events);
        i := i + 1;
      }
      WaitedEnough(s, was, waiting, i, failed, locked, events, Now());
    }

    /** From the first round trip to the lock surfaces. */
    method Connect(s: Script) returns (failed: bool, ghost o: Opening)
      requires Starting() && !exposed && !locked
      modifies `surfaces, `repr, `exposed, `locked, `log, `handled, `outputs, repr
      modifies state, state.loop, state.password`len, state.password.buf, state.requests
      ensures forall x :: x in repr ==> x in old(repr) || fresh(x)
      ensures Starting()
      ensures failed <==> Fails(s.first) || !s.globals || Fails(s.second)
      ensures !failed ==> LockRequested in log && Exposed()
      ensures !failed ==> Requested(old(Now()), s, o, Now()) && (locked <==> Grants(s.first) || Grants(s.second))
    {
      ghost var events;
      failed, events := Receive(s.first);
      o := Opening(events, Now(), [], Now(), [], Now());
      if !failed {
        if s.globals {
          failed, o := Prepare(s.second, o);
        } else {
          failed := true;
        }
      }
    }

    /** From the lock request to the lock surfaces. */
    method Prepare(b: Batch, ghost o: Opening) returns (failed: bool, ghost done: Opening)
      requires Starting() && !exposed && o.connected == Now()
      modifies `surfaces, `repr, `exposed, `locked, `log, `handled, `outputs, repr
      modifies state, state.loop, state.password`len, state.password.buf, state.requests
      ensures forall x :: x in repr ==> x in old(repr) || fresh(x)
      ensures Starting() && (failed <==> Fails(b))
      ensures !failed ==> LockRequested in log && Exposed()
      ensures !failed ==> (locked <==> old(locked) || Grants(b))
      ensures done.first == o.first && done.connected == o.connected
      ensures !failed ==>
                && Now() == Covered(done.requested)
                && ArrivalsDone(Said(o.connected, LockRequested), Arrivals(b.messages), done.second, done.requested)
    {
      ghost var events;
      failed, events := RequestLock(b);
      done := o.(second := events, requested := Now());
      if !failed {
        CreateAll();
      }
    }

    method RequestLock(b: Batch) returns (failed: bool, ghost events: seq<M.Event>)
      requires Starting() && !exposed
      modifies `surfaces, `repr, `exposed, `locked, `log, `handled, `outputs, repr
      modifies state, state.loop, state.password`len, state.password.buf, state.requests
      ensures forall x :: x in repr ==> x in old(repr) || fresh(x)
      ensures Starting() && !exposed && LockRequested in log && (failed <==> Fails(b))
      ensures !failed ==> ArrivalsDone(Said(old(Now()), LockRequested), Arrivals(b.messages), events, Now())
      ensures !failed ==> (locked <==> old(locked) || Grants(b))
    {
      InOrderNext(log, LockRequested);
      log := log + [LockRequested];
      ghost var before := log;
      assert log[|log| - 1] == LockRequested;
      failed, events := Receive(b);
      Carried(before, log);
    }

    /** The readiness newline, if one is asked for. */
    method Announce(ready: Option<bool>) returns (failed: bool)
      requires Starting() && locked
      modifies `log
      ensures Starting() && locked && (failed <==> ready == Some(false))
      ensures log == old(log) + if ready == Some(true) then [ReadinessSent] else []
      ensures Now() == if ready == Some(true) then Said(old(Now()), ReadinessSent) else old(Now())
    {
      failed := ready == Some(false);
      if ready == Some(true) {
        InOrderNext(log, ReadinessSent);
        log := log + [ReadinessSent];
      }
    }

    method StartLoop() returns (ghost e: M.Event)
      requires Valid()
      modifies state, state.loop
      ensures Valid() && state.runDisplay && Entered(old(Now()), e, Now())
    {
      ghost var s := Now();
      e := state.Start();
      M.StepGood(s.at.view, e);
      EnteredBy(s, e, Now());
    }

    /**
     An output that is announced and complete after the lock surfaces were made, but before the loop runs, is never
     given one by any of the handlers involved.
     */
    method LateOutput() returns (i: nat)
      requires Starting() && !exposed
      modifies `surfaces, `repr, `exposed, `locked, `log, `handled, `outputs, repr
      modifies state, state.loop
      ensures Valid() && state.runDisplay && i < |surfaces| && !surfaces[i].created
      ensures forall j :: 0 <= j < i ==> surfaces[j].created
    {
      CreateAll();
      i := LateArrival();
      ghost var e := StartLoop();
    }

    method LateArrival() returns (i: nat)
      requires Starting() && Exposed()
      modifies `surfaces, `repr, `exposed, `outputs, repr
      ensures Valid() && i < |surfaces| && !surfaces[i].created
      ensures forall j :: 0 <= j < i ==> surfaces[j].created
    {
      i := |surfaces|;
      OutputAdded();
      OutputDone(i);
    }

    /** Nothing is registered yet. */
    ghost predicate Unused(table: Table)
      reads table, table.fds
    {
      table.Valid() && table.length == 0
    }

    method Listen(table: Table)
      requires Unused(table)
      modifies table, table.fds
      ensures Listening(table) && (table.fds == old(table.fds) || fresh(table.fds))
    {
      table.Add(displayFd, POLLIN, DisplayIn);
      table.Add(replyFd, POLLIN, ReplyIn);
      table.Add(termFd, POLLIN, TermIn);
      assert [Registration(displayFd, POLLIN, DisplayIn)] + [Registration(replyFd, POLLIN, ReplyIn)]
             + [Registration(termFd, POLLIN, TermIn)] == Registered(displayFd, replyFd, termFd);
    }

    /** Registers the descriptors, arms the clock and runs the loop. */
    method Enter(rounds: seq<Round>, table: Table) returns (ghost start: M.Event, left: Left, ghost turns: Trace<Turn>)
      requires Starting() && locked && Unused(table)
      modifies `surfaces, `repr, `exposed, `locked, `log, `handled, `outputs, repr
      modifies state, state.loop, state.password`len, state.password.buf, state.requests, replies, table, table.fds
      ensures Entered(old(Now()), start, Begin(turns)) && RunMade(left, rounds, turns, Now())
      ensures (left != Aborted ==> Valid()) && OnlyLocked(old(log), log)
    {
      Listen(table);
      start := StartLoop();
      left, turns := Run(rounds, table);
      RunSays(left, rounds, turns, Now());
    }

    /** The end of `main`: the lock is given up. */
    method CleanUp()
      requires state.Wired(NULL)
      modifies `log, state, state.loop
      ensures log == old(log) + [UnlockRequested] && state.View() == M.Step(old(state.View()), M.Finish)
    {
      state.Finish();
      log := log + [UnlockRequested];
    }

    /** Runs, and unlocks if the loop was left for that. */
    method RunAndUnlock(s: Script, table: Table, ghost o: Opening) returns (ending: Ending, ghost c: Course)
      requires Starting() && locked && Unused(table)
      requires EntersLoop(s) && Now() == BeforeLoop(s, o)
      modifies `surfaces, `repr, `exposed, `locked, `log, `handled, `outputs, repr
      modifies state, state.loop, state.password`len, state.password.buf, state.requests, replies, table, table.fds
      ensures Concluded(s, o, ending, c, log) && EndsIn(old(log), log, ending)
    {
      ghost var start, turns, before := M.Terminate, Begun(Now()), log;
      var left;
      start, left, turns := Enter(s.rounds, table);
      c := Course(o, start, left, turns, Now());
      ending := Leave(left);
      Ordered(before, c.last.log, log, ending);
    }

    /** What follows the loop. */
    method Leave(left: Left) returns (ending: Ending)
      requires left != Aborted ==> Valid()
      modifies `log, state, state.loop
      ensures ending == EndingFor(left) && log == old(log) + if ending.Unlocked? then [UnlockRequested] else []
    {
      ending := EndingFor(left);
      if ending.Unlocked? {
        CleanUp();
      }
    }

    /** The process does not go to the background: the lock is given up at once. */
    method Abandon()
      requires Starting() && locked
      modifies `log, state, state.loop
      ensures EndsIn(old(log), log, Unlocked(false))
    {
      ghost var before := log;
      CleanUp();
      Ordered(before, before, log, Unlocked(false));
    }

    /** Goes to the background, runs, unlocks. */
    method HoldOn(s: Script, table: Table, ghost o: Opening) returns (ending: Ending, ghost c: Course)
      requires Starting() && locked && Unused(table)
      requires Outset(s).After? && s.ready != Some(false) && Now() == BeforeLoop(s, o)
      modifies `surfaces, `repr, `exposed, `locked, `log, `handled, `outputs, repr
      modifies state, state.loop, state.password`len, state.password.buf, state.requests, replies, table, table.fds
      ensures Concluded(s, o, ending, c, log) && EndsIn(old(log), log, ending)
    {
      if s.daemonized == Some(false) {
        ending, c := Unlocked(false), NoCourse(o);
        Abandon();
      } else {
        ending, c := RunAndUnlock(s, table, o);
      }
    }

    /** After the session is locked: tells who waits, then holds the lock. */
    method Hold(s: Script, table: Table, ghost o: Opening) returns (ending: Ending, ghost c: Course)
      requires Starting() && locked && Unused(table)
      requires Outset(s).After? && o.granted == Now()
      modifies `surfaces, `repr, `exposed, `locked, `log, `handled, `outputs, repr
      modifies state, state.loop, state.password`len, state.password.buf, state.requests, replies, table, table.fds
      ensures Concluded(s, o, ending, c, log) && EndsIn(old(log), log, ending)
      ensures s.ready == Some(true) ==> ReadinessSent in log
    {
      ghost var before := log;
      var failed := Announce(s.ready);
      ghost var announced := log;
      if failed {
        ending, c := GaveUp, NoCourse(o);
      } else {
        ending, c := HoldOn(s, table, o);
        EndsAfterAnnouncing(before, s.ready == Some(true), announced, log, ending);
      }
    }

    method WaitToOpen(s: Script, ghost start: Status, ghost asked: Opening) returns (failed: bool, ghost o: Opening)
      requires Starting() && Requested(start, s, asked, Now())
      requires !(Fails(s.first) || !s.globals || Fails(s.second)) && (locked <==> Grants(s.first) || Grants(s.second))
      modifies `surfaces, `repr, `exposed, `locked, `log, `handled, `outputs, repr
      modifies state, state.loop, state.password`len, state.password.buf, state.requests
      ensures forall x :: x in repr ==> x in old(repr) || fresh(x)
      ensures Starting() && old(log) <= log && o.granted == Now()
      ensures OpensAs(failed, locked, start, s, o)
    {
      ghost var asking, events := Now(), [];
      failed, events := AwaitLock(s.waiting);
      o := asked.(rest := events, granted := Now());
      OpenedBy(start, s, asked, asking, failed, locked, o);
    }

    /** What follows the wait for the lock. */
    method AfterWait(failed: bool, s: Script, table: Table, ghost start: Status, ghost o: Opening)
      returns (ending: Ending, ghost c: Course)
      requires Starting() && Unused(table) && o.granted == Now()
      requires OpensAs(failed, locked, start, s, o)
      modifies `surfaces, `repr, `exposed, `locked, `log, `handled, `outputs, repr
      modifies state, state.loop, state.password`len, state.password.buf, state.requests, replies, table, table.fds
      ensures Finished(start, s, ending, c, log) && EndsIn(old(log), log, ending)
      ensures Outset(s).After? && s.ready == Some(true) ==> ReadinessSent in log
    {
      if !failed && locked {
        ending, c := Hold(s, table, o);
        ConcludedFinished(start, s, o, ending, c, log);
      } else {
        ending, c := if failed then GaveUp else Waiting, NoCourse(o);
        NoLoop(start, s, ending, c, log);
      }
    }

    /** The wait for the lock, if the first round trips did not fail. */
    method WaitUnless(failed: bool, s: Script, ghost start: Status, ghost asked: Opening)
      returns (over: bool, ghost o: Opening)
      requires Starting() && (failed <==> Fails(s.first) || !s.globals || Fails(s.second))
      requires !failed ==> Requested(start, s, asked, Now()) && (locked <==> Grants(s.first) || Grants(s.second))
      modifies `surfaces, `repr, `exposed, `locked, `log, `handled, `outputs, repr
      modifies state, state.loop, state.password`len, state.password.buf, state.requests
      ensures forall x :: x in repr ==> x in old(repr) || fresh(x)
      ensures Starting() && old(log) <= log && o.granted == Now() && OpensAs(over, locked, start, s, o)
    {
      if failed {
        over, o := true, asked.(granted := Now());
      } else {
        over, o := WaitToOpen(s, start, asked);
      }
    }

    /** `main` up to the point where the session is locked, as far as it comes. */
    method Open(s: Script) returns (failed: bool, ghost o: Opening)
      requires Starting() && !exposed && !locked
      modifies `surfaces, `repr, `exposed, `locked, `log, `handled, `outputs, repr
      modifies state, state.loop, state.password`len, state.password.buf, state.requests
      ensures forall x :: x in repr ==> x in old(repr) || fresh(x)
      ensures Starting() && o.granted == Now() && OpensAs(failed, locked, old(Now()), s, o)
      ensures Outset(s).After? ==> LockRequested in log
    {
      ghost var start := Now();
      failed, o := Connect(s);
      ghost var requested := log;
      failed, o := WaitUnless(failed, s, start, o);
      Carried(requested, log);
    }

    /**
     `main` from the first round trip on. How it ends is decided by the script before the loop, and by the loop
     after that; the lock is given up only after the compositor granted it.
     */
    method LockSession(s: Script, table: Table) returns (ending: Ending, ghost c: Course)
      requires Starting() && !exposed && !locked && Unused(table)
      modifies `surfaces, `repr, `exposed, `locked, `log, `handled, `outputs, repr
      modifies state, state.loop, state.password`len, state.password.buf, state.requests, replies, table, table.fds
      ensures Finished(old(Now()), s, ending, c, log)
      ensures InOrder(log) && (UnlockRequested in log <==> ending.Unlocked?)
      ensures Outset(s).After? ==> LockRequested in log && (s.ready == Some(true) ==> ReadinessSent in log)
    {
      ghost var start := Now();
      ghost var o;
      var failed;
      failed, o := Open(s);
      ghost var sofar := log;
      ending, c := AfterWait(failed, s, table, start, o);
      Carried(sofar, log);
    }
  }
}
