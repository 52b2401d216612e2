/**
 One lock surface per output: the buffer pool, repaint scheduling, and what the
 compositor is sent (src/ctx.c:41-162, src/render.c:21-96, src/render.c:272-325,
 main.c:113-167, main.c:182-231). Drawing itself is not part of this model.
 */
module Surfaces {
  import opened Options
  import opened Utf8
  import opened Machine

  datatype Size = Size(width: int, height: int)

  /** What the indicator shows, and the geometry it was drawn for. */
  datatype Painting = Painting(snapshot: Snapshot, width: int, height: int, scale: int)

  /** The two screens `render_frame` chooses between. */
  datatype Screen = IdleScreen(minute: nat) | FormScreen(auth: AuthState, capsWarning: bool)

  function ScreenOf(s: Snapshot): Screen {
    if s.input == Pristine && s.auth == Idle then IdleScreen(s.minute)
    else FormScreen(s.auth, s.auth == Idle && s.capsLock)
  }

  /** What is visible of the state. */
  function Visible(c: Core): Snapshot {
    Snapshot(c.auth, c.input, ByteLength(c.text), c.xkb.capsLock, c.minute)
  }

  /**
   Over every sequence of events: the screen that shows only the clock is chosen exactly while the program is idle and
   nothing was typed, and then no text is held; every other screen says how authentication stands, as many dots as
   there are bytes held, and warns of caps lock exactly while that is of use.
   */
  lemma IdleScreenHoldsNothing(v: View, events: seq<Event>)
    requires Good(v.core) && Fits(v.core)
    ensures var c := Replay(v, events).core;
            var screen := ScreenOf(Visible(c));
            && (screen == IdleScreen(c.minute) <==> c.auth == Idle && c.input == Pristine)
            && (screen.IdleScreen? ==> screen.minute == c.minute && c.text == [])
            && (screen.FormScreen? ==>
                  screen.auth == c.auth && (screen.capsWarning <==> c.xkb.capsLock && c.auth == Idle))
            && Visible(c).length == |EncodeAll(c.text)|
  {
    GoodThroughout(v, events);
    EncodeAllLength(Replay(v, events).core.text);
  }

  const UINT32: int := 0x1_0000_0000

  /** The byte size computed in 32-bit unsigned arithmetic. */
  function ByteSize(s: Size): int {
    ((s.width * 4) % UINT32 * s.height) % UINT32
  }

  /** The size is the real one exactly while it fits 32 bits. */
  lemma ByteSizeExact(s: Size)
    requires 0 <= s.width && 0 <= s.height
    ensures ByteSize(s) == 4 * s.width * s.height <==> 4 * s.width * s.height < UINT32
  {
    var stride := s.width * 4;
    var q := stride / UINT32;
    assert stride % UINT32 == stride - q * UINT32;
    assert stride % UINT32 * s.height == stride * s.height - (q * s.height) * UINT32 by {
      Distribute(stride, q * UINT32, s.height);
      Associate(q, s.height);
    }
    ModMinusMultiple(stride * s.height, q * s.height);
    assert stride * s.height == 4 * s.width * s.height;
    Product(s.width, s.height);
  }

  lemma Product(a: int, b: int)
    requires 0 <= a && 0 <= b
    ensures 4 * a * b >= 0
  {}

  lemma Distribute(a: int, b: int, c: int)
    ensures (a - b) * c == a * c - b * c
  {}

  lemma Associate(q: int, h: int)
    ensures q * UINT32 * h == (q * h) * UINT32
  {}

  lemma ModMinusMultiple(a: int, k: int)
    ensures (a - k * UINT32) % UINT32 == a % UINT32
  {
    var q := a / UINT32;
    assert a == q * UINT32 + a % UINT32;
    assert a - k * UINT32 == (q - k) * UINT32 + a % UINT32;
  }

  /** A pool entry; a wiped one has no buffer and no size. */
  datatype Ctx = Ctx(buffer: bool, size: Size, busy: bool)

  /** What `ctx_get_indicator` hands out, or why it does not. */
  datatype Selected = Entry(index: int) | NoBuffers | NotCreated

  const NOTHING: Size := Size(0, 0)
  const WIPED: Ctx := Ctx(false, NOTHING, false)

  /** `ctx_create`, when shared memory and the cairo surface are available and the byte size does not wrap to zero. */
  function Created(s: Size): Ctx {
    Ctx(true, s, false)
  }

  predicate Sound(c: Ctx) {
    c.buffer <==> c.size != NOTHING
  }

  /** A commit of the lock surface as the compositor sees it. */
  datatype Commit = Commit(acked: Option<Size>, scale: int, buffer: Option<Size>)

  /** ext_session_lock_surface_v1: only after an ack, never a null buffer, exactly the acked size times the scale. */
  predicate Conforms(c: Commit) {
    c.acked.Some? && c.buffer == Some(Size(c.acked.value.width * c.scale, c.acked.value.height * c.scale))
  }

  /** The indicator buffer: each side rounded up past the surface to a multiple of the scale. */
  function IndicatorSize(width: int, height: int, scale: int): Size
    requires scale > 0
  {
    Size(width + (scale - width % scale), height + (scale - height % scale))
  }

  lemma IndicatorIsMultiple(width: int, height: int, scale: int)
    requires scale > 0 && width >= 0 && height >= 0
    ensures var s := IndicatorSize(width, height, scale);
            && s.width % scale == 0 && s.height % scale == 0
            && width < s.width <= width + scale && height < s.height <= height + scale
  {
    RoundsUp(width, scale);
    RoundsUp(height, scale);
  }

  lemma RoundsUp(a: int, scale: int)
    requires scale > 0
    ensures (a + (scale - a % scale)) % scale == 0
  {
    var q := a / scale;
    assert a + (scale - a % scale) == (q + 1) * scale;
    MultipleMod(q + 1, scale);
  }

  lemma AtLeast(k: int, n: int)
    requires n > 0
    ensures k >= 1 ==> k * n >= n
    ensures k <= -1 ==> k * n <= -n
  {}

  lemma MultipleMod(q: int, n: int)
    requires n > 0
    ensures (q * n) % n == 0
  {
    assert (q * n) / n == q by {
      var d, r := (q * n) / n, (q * n) % n;
      assert q * n == d * n + r;
      assert (q - d) * n == r;
      AtLeast(q - d, n);
    }
  }

  /** The compositor holds the indicator buffers that are busy; the background never is. */
  predicate Holding(pool: seq<Ctx>, held: set<int>)
    requires |pool| == 3
  {
    !pool[0].busy && held <= {1, 2} && (1 in held <==> pool[1].busy) && (2 in held <==> pool[2].busy)
  }

  /**
   The background: its pool entry, the size last attached, whether the compositor holds it, and whether one was
   destroyed while the compositor held it.
   */
  datatype Background = Background(entry: Ctx, last: Size, onScreen: bool, torn: bool)

  /** A background of the size can be attached, if only because it counts as attached already. */
  predicate Attachable(b: Background, size: Size, room: bool) {
    room || b.last == size || b.entry.size == size
  }

  /** After an attempt to attach a background of the size. */
  function Attach(b: Background, size: Size, room: bool): Background {
    if b.last == size then b
    else if b.entry.size == size then b.(last := size, onScreen := true)
    else if room then Background(Created(size), size, true, b.torn || b.onScreen)
    else Background(WIPED, b.last, false, b.torn || b.onScreen)
  }

  /**
   When a surface is committed, its background is there exactly if the entry had the size already, or another size was
   attached last and there was room for this one.
   */
  lemma BackgroundThere(b: Background, size: Size, room: bool)
    requires Sound(b.entry) && size != NOTHING && Attachable(b, size, room)
    ensures var after := Attach(b, size, room);
            after.entry.buffer && after.entry.size == size <==> b.entry.size == size || (b.last != size && room)
  {}

  class Surface {
    /** The lock surface, its subsurface and their role exist. */
    var created: bool
    var dirty: bool
    /** A frame callback is pending. */
    var frame: bool
    var width: int
    var height: int
    var scale: int
    var lastBuffer: Size
    /** pool[0] holds the background, pool[1] and pool[2] the double-buffered indicator. */
    var pool: seq<Ctx>

    /** Lock surfaces requested for this output. */
    ghost var lockSurfaces: nat
    /** The last size acknowledged to the compositor. */
    ghost var acked: Option<Size>
    /** The buffer attached to the lock surface. */
    ghost var attached: Option<Size>
    ghost var commits: seq<Commit>
    /** Indicator buffers the compositor has not released. */
    ghost var held: set<int>
    ghost var painting: Option<Painting>
    /** The last attempt to draw found no buffer. */
    ghost var starved: bool
    /** The scale changed before the main loop ran, and nothing has asked for a repaint since. */
    ghost var rescaled: bool
    /** The compositor holds the background buffer. */
    ghost var onScreen: bool
    /** A background buffer was destroyed while the compositor held it. */
    ghost var torn: bool

    ghost predicate Valid()
      reads this
    {
      && |pool| == 3 && (forall i :: 0 <= i < 3 ==> Sound(pool[i]))
      && Holding(pool, held) && (onScreen ==> pool[0].buffer)
      && width >= 0 && height >= 0 && scale >= 0
      && (acked.Some? ==> created && acked.value == Size(width, height))
      && (acked.None? ==> width == height == 0)
      && attached == (if lastBuffer == NOTHING then None else Some(lastBuffer))
      && (forall i :: 0 <= i < |commits| ==> Conforms(commits[i]))
      && lockSurfaces == (if created then 1 else 0)
    }

    ghost predicate Configured()
      reads this
    {
      width * scale != 0 && height * scale != 0
    }

    /** A repaint asked for now is made now, if new buffers can be had where needed. */
    ghost predicate Drawable()
      reads this
    {
      !frame && Configured() && held != {1, 2}
    }

    ghost predicate Current(snap: Snapshot)
      reads this
    {
      painting == Some(Painting(snap, width, height, scale))
    }

    /** Nothing is lost: shown as it is now, or to be redrawn when the pending frame is done. */
    ghost predicate Fresh(snap: Snapshot)
      reads this
    {
      Configured() ==> starved || rescaled || (dirty && frame) || (!dirty && Current(snap))
    }

    constructor ()
      ensures Valid() && !created && !dirty && !frame && width == height == scale == 0
      ensures commits == [] && held == {} && !starved && !rescaled && Back() == Background(WIPED, NOTHING, false, false)
    {
      created, dirty, frame := false, false, false;
      width, height, scale := 0, 0, 0;
      lastBuffer := NOTHING;
      pool := [WIPED, WIPED, WIPED];
      lockSurfaces := 0;
      acked, attached, painting := None, None, None;
      commits, held, starved, rescaled, onScreen, torn := [], {}, false, false, false, false;
    }

    /** `ctx_get_background`: a buffer of another size is destroyed, whether or not the compositor holds it. */
    method GetBackground(size: Size, room: bool) returns (ok: bool)
      requires Valid() && size != NOTHING
      modifies `pool, `onScreen, `torn
      ensures Valid()
      ensures pool[1] == old(pool[1]) && pool[2] == old(pool[2])
      ensures pool[0] == if old(pool[0].size) == size then old(pool[0]) else if ok then Created(size) else WIPED
      ensures ok <==> room || old(pool[0].size) == size
      ensures torn <==> old(torn) || (old(onScreen) && old(pool[0].size) != size)
      ensures onScreen <==> old(onScreen) && old(pool[0].size) == size
    {
      ok := true;
      if pool[0].size != size {
        DestroyBackground();
        ok := room;
        if ok {
          pool := pool[0 := Created(size)];
        }
      }
    }

    /** `ctx_destroy` of the background. */
    method DestroyBackground()
      requires Valid()
      modifies `pool, `onScreen, `torn
      ensures Valid() && pool == old(pool)[0 := WIPED] && !onScreen && (torn <==> old(torn || onScreen))
    {
      torn, onScreen := torn || onScreen, false;
      pool := pool[0 := WIPED];
    }

    /** `ctx_get_indicator`: the entry handed out is one the compositor does not hold, and of the size asked for. */
    method GetIndicator(size: Size, room: bool) returns (r: Selected)
      requires Valid() && size != NOTHING
      modifies `pool
      ensures r.NoBuffers? <==> held == {1, 2}
      ensures r.Entry? <==> held != {1, 2} && (room || old(pool)[FirstFree()].size == size)
      ensures |pool| == 3 && forall i :: 0 <= i < 3 && (r.NoBuffers? || i != FirstFree()) ==> pool[i] == old(pool[i])
      ensures r.Entry? ==> r.index == FirstFree() && r.index !in held && pool[r.index] == Created(size).(busy := true)
      ensures r.NotCreated? ==> pool[FirstFree()] == WIPED
      ensures r == Entry(2) ==> 1 in held
    {
      var i := if pool[1].busy then if pool[2].busy then -1 else 2 else 1;
      if i == -1 {
        return NoBuffers;
      }
      if pool[i].size != size {
        pool := pool[i := WIPED];
      }
      if !pool[i].buffer {
        if !room {
          return NotCreated;
        }
        pool := pool[i := Created(size)];
      }
      pool := pool[i := pool[i].(busy := true)];
      return Entry(i);
    }

    /** The first of the two indicator buffers that the compositor does not hold. */
    ghost function FirstFree(): int
      reads `held
    {
      if 1 in held then 2 else 1
    }

    /** An indicator buffer of the right size is free, or can be had. */
    ghost predicate IndicatorReady(room: bool)
      requires |pool| == 3 && scale > 0
      reads `held, `pool, `width, `height, `scale
    {
      held != {1, 2} && (room || pool[FirstFree()].size == IndicatorSize(width, height, scale))
    }

    ghost function Back(): Background
      requires |pool| == 3
      reads `pool, `lastBuffer, `onScreen, `torn
    {
      Background(pool[0], lastBuffer, onScreen, torn)
    }

    /** `render_frame` up to and including the commit of the indicator. */
    method RenderFrame(snap: Snapshot, room: bool) returns (drawn: bool)
      requires Valid() && scale > 0
      modifies `pool, `held, `painting
      ensures Valid() && pool[0] == old(pool[0])
      ensures drawn <==> old(IndicatorReady(room))
      ensures drawn ==> Current(snap) && held == old(held) + {old(FirstFree())} && held != old(held)
      ensures !drawn ==> painting == old(painting) && held == old(held)
      ensures forall i :: i in old(held) ==> 1 <= i < 3 && pool[i] == old(pool[i])
      ensures drawn ==>
                var b := pool[old(FirstFree())];
                && b.buffer && b.busy && b.size.width % scale == 0 && b.size.height % scale == 0
                && width < b.size.width <= width + scale && height < b.size.height <= height + scale
    {
      var size := IndicatorSize(width, height, scale);
      IndicatorIsMultiple(width, height, scale);
      var r := GetIndicator(size, room);
      if !r.Entry? {
        return false;
      }
      held := held + {r.index};
      painting := Some(Painting(snap, width, height, scale));
      return true;
    }

    /** Attaches a background of the right size unless the attached one already has it. */
    method AttachBackground(size: Size, room: bool) returns (ok: bool)
      requires Valid() && size != NOTHING
      modifies `pool, `attached, `lastBuffer, `onScreen, `torn
      ensures Valid() && pool[1] == old(pool[1]) && pool[2] == old(pool[2])
      ensures Back() == Attach(old(Back()), size, room) && (ok <==> Attachable(old(Back()), size, room))
      ensures ok ==> attached == Some(size)
    {
      if size != lastBuffer {
        ok := GetBackground(size, room);
        if !ok {
          return false;
        }
        attached, onScreen := Some(pool[0].size), true;
        lastBuffer := size;
      }
      return true;
    }

    /** A render now gets past its guards. */
    ghost predicate Renders()
      reads this
    {
      dirty && !frame && Configured()
    }

    ghost function BufferSize(): Size
      reads `width, `height, `scale
    {
      Size(width * scale, height * scale)
    }

    /** `rnd_handle_render` */
    method Render(snap: Snapshot, backgroundRoom: bool, indicatorRoom: bool)
      requires Valid()
      modifies this
      ensures Valid() && rescaled == old(rescaled) && created == old(created)
      ensures width == old(width) && height == old(height) && scale == old(scale) && acked == old(acked)
      ensures old(!Renders()) ==> unchanged(this)
      ensures old(dirty) ==> Fresh(snap)
      ensures starved ==> painting == old(painting)
      ensures old(Renders()) ==>
                && (starved <==>
                      !Attachable(old(Back()), BufferSize(), backgroundRoom) || !old(IndicatorReady(indicatorRoom)))
                && held == (if starved then old(held) else old(held) + {old(FirstFree())})
                && Back() == Attach(old(Back()), BufferSize(), backgroundRoom)
                && (!starved ==> Current(snap))
                && (Attachable(old(Back()), BufferSize(), backgroundRoom) ==>
                      !dirty && frame
                      && commits == old(commits) + [Commit(acked, scale, Some(Size(width * scale, height * scale)))])
                && (!Attachable(old(Back()), BufferSize(), backgroundRoom) ==>
                      dirty && !frame && commits == old(commits))
      ensures forall i :: i in old(held) ==> 1 <= i < 3 && pool[i] == old(pool[i])
    {
      var buffer := Size(width * scale, height * scale);
      if buffer.width == 0 || buffer.height == 0 {
        return;
      }
      if !dirty || frame {
        return;
      }
      Redraw(buffer, snap, backgroundRoom, indicatorRoom);
    }

    /** The rest of `rnd_handle_render`. */
    method Redraw(buffer: Size, snap: Snapshot, backgroundRoom: bool, indicatorRoom: bool)
      requires Valid() && Renders() && buffer == BufferSize()
      modifies this
      ensures Valid() && rescaled == old(rescaled) && created == old(created)
      ensures width == old(width) && height == old(height) && scale == old(scale) && acked == old(acked)
      ensures starved <==> !Attachable(old(Back()), buffer, backgroundRoom) || !old(IndicatorReady(indicatorRoom))
      ensures held == if starved then old(held) else old(held) + {old(FirstFree())}
      ensures Back() == Attach(old(Back()), buffer, backgroundRoom)
      ensures if starved then painting == old(painting) else Current(snap)
      ensures Attachable(old(Back()), buffer, backgroundRoom) ==>
                !dirty && frame && commits == old(commits) + [Commit(acked, scale, Some(buffer))]
      ensures !Attachable(old(Back()), buffer, backgroundRoom) ==> dirty && !frame && commits == old(commits)
      ensures forall i :: i in old(held) ==> 1 <= i < 3 && pool[i] == old(pool[i])
    {
      ScalePositive();
      var ok := AttachBackground(buffer, backgroundRoom);
      if ok {
        DrawAndCommit(snap, indicatorRoom);
      } else {
        Starve();
      }
    }

    method Starve()
      requires Valid()
      modifies `starved
      ensures Valid() && starved
    {
      starved := true;
    }

    /** Draws the indicator if it can, and commits the lock surface in any case. */
    method DrawAndCommit(snap: Snapshot, room: bool)
      requires Valid() && Configured() && scale > 0 && attached == Some(BufferSize())
      modifies `pool, `held, `painting, `starved, `dirty, `frame, `commits
      ensures Valid() && Back() == old(Back()) && !dirty && frame && (starved <==> !old(IndicatorReady(room)))
      ensures held == if starved then old(held) else old(held) + {old(FirstFree())}
      ensures if starved then painting == old(painting) else Current(snap)
      ensures commits == old(commits) + [Commit(acked, scale, attached)]
      ensures forall i :: i in old(held) ==> 1 <= i < 3 && pool[i] == old(pool[i])
    {
      var drawn := RenderFrame(snap, room);
      CommitSurface(drawn);
    }

    /** One turn of `damage_state`. */
    method Damage(snap: Snapshot, backgroundRoom: bool, indicatorRoom: bool)
      requires Valid()
      modifies this
      ensures Valid() && Fresh(snap) && !rescaled && created == old(created)
      ensures width == old(width) && height == old(height) && scale == old(scale) && acked == old(acked)
      ensures starved ==> painting == old(painting)
      ensures old(frame) ==> dirty && frame && starved == old(starved) && commits == old(commits) && held == old(held)
      ensures old(!frame && Configured()) && backgroundRoom ==>
                (starved <==> !old(IndicatorReady(indicatorRoom))) && !dirty && frame && |commits| == |old(commits)| + 1
      ensures old(!frame && Configured()) ==> held == if starved then old(held) else old(held) + {old(FirstFree())}
      ensures old(Drawable()) && backgroundRoom && indicatorRoom ==> Current(snap) && !dirty && frame && !starved
      ensures old(!starved && held != {1, 2}) && backgroundRoom && indicatorRoom ==> !starved
    {
      dirty, rescaled := true, false;
      Render(snap, backgroundRoom, indicatorRoom);
    }

    /** The end of `rnd_handle_render`: the surface counts as clean whether or not a frame was drawn. */
    method CommitSurface(drawn: bool)
      requires Valid() && Configured() && attached == Some(Size(width * scale, height * scale))
      modifies `starved, `dirty, `frame, `commits
      ensures Valid() && !dirty && frame && starved == !drawn
      ensures commits == old(commits) + [Commit(acked, scale, attached)]
    {
      starved := !drawn;
      dirty := false;
      frame := true;
      ConfiguredAcked();
      commits := commits + [Commit(acked, scale, attached)];
    }

    lemma ScalePositive()
      requires Valid() && Configured()
      ensures scale > 0
    {}

    lemma ConfiguredAcked()
      requires Valid() && Configured()
      ensures acked == Some(Size(width, height))
    {}

    /** `surface_frame_handle_done` */
    method FrameDone(snap: Snapshot, backgroundRoom: bool, indicatorRoom: bool)
      requires Valid() && frame
      modifies this
      ensures Valid() && created == old(created)
      ensures width == old(width) && height == old(height) && scale == old(scale) && acked == old(acked)
      ensures old(Fresh(snap)) ==> Fresh(snap)
      ensures old(!dirty || !Configured()) ==>
                !frame && unchanged(`dirty, `commits, `held, `painting, `starved, `pool, `lastBuffer, `onScreen, `torn)
      ensures old(dirty && Configured() && held != {1, 2}) && backgroundRoom && indicatorRoom ==>
                Current(snap) && !dirty && frame && held == old(held) + {old(FirstFree())}
    {
      frame := false;
      Render(snap, backgroundRoom, indicatorRoom);
    }

    /** `buffer_release` of an indicator buffer. */
    method Release(i: int)
      requires Valid() && i in held
      modifies `pool, `held
      ensures Valid() && held == old(held) - {i}
    {
      pool := pool[i := pool[i].(busy := false)];
      held := held - {i};
    }

    /** `buffer_release` of the background, which is never marked busy. */
    method ReleaseBackground()
      requires Valid()
      modifies `pool, `onScreen
      ensures Valid() && Back() == old(Back()).(onScreen := false) && pool == old(pool)
    {
      pool := pool[0 := pool[0].(busy := false)];
      onScreen := false;
    }

    /** `create_surface` */
    method Create()
      requires Valid() && !created
      modifies `created, `lockSurfaces
      ensures Valid() && created
    {
      lockSurfaces := lockSurfaces + 1;
      created := true;
    }

    /** `ext_session_lock_surface_v1_handle_configure`: acknowledges before it draws. */
    method Configure(w: nat, h: nat, snap: Snapshot, backgroundRoom: bool, indicatorRoom: bool)
      requires Valid() && created
      modifies this
      ensures Valid() && Fresh(snap) && created == old(created)
      ensures width == w && height == h && scale == old(scale) && acked == Some(Size(w, h))
      ensures old(frame) || !Configured() ==> Back() == old(Back()) && frame == old(frame) && dirty
      ensures old(!frame) && Configured() ==>
                && Back() == Attach(old(Back()), BufferSize(), backgroundRoom)
                && (Attachable(old(Back()), BufferSize(), backgroundRoom) ==>
                    !dirty && frame && attached == Some(Size(w * scale, h * scale)))
      ensures old(!frame && held != {1, 2}) && Configured() && backgroundRoom && indicatorRoom ==>
                Current(snap) && !starved && held == old(held) + {old(FirstFree())}
    {
      width, height := w, h;
      acked := Some(Size(w, h));
      dirty, rescaled := true, false;
      Render(snap, backgroundRoom, indicatorRoom);
    }

    /** `handle_wl_output_geometry` */
    method Geometry(running: bool, snap: Snapshot, backgroundRoom: bool, indicatorRoom: bool)
      requires Valid()
      modifies this
      ensures Valid() && created == old(created)
      ensures old(Fresh(snap)) || running ==> Fresh(snap)
      ensures running ==> !rescaled && (old(frame) ==> dirty)
      ensures !running ==> unchanged(this)
    {
      if running {
        Damage(snap, backgroundRoom, indicatorRoom);
      }
    }

    /**
     `handle_wl_output_scale`. Before the main loop runs, a new scale does not mark the surface dirty:
     a frame drawn for the old scale is then left as it is.
     */
    method SetScale(factor: int, running: bool, snap: Snapshot, backgroundRoom: bool, indicatorRoom: bool)
      requires Valid() && factor > 0
      modifies this
      ensures Valid() && created == old(created) && scale == factor
      ensures running ==> Fresh(snap) && !rescaled && (old(frame) ==> dirty)
      ensures !running ==>
                rescaled == (old(rescaled) || factor != old(scale)) && width == old(width) && height == old(height)
      ensures !running ==>
                unchanged(`dirty, `frame, `held, `painting, `starved, `pool, `lastBuffer, `acked, `commits,
                    `onScreen, `torn)
      ensures old(Fresh(snap)) ==> Fresh(snap)
      ensures !running && old(Current(snap)) ==> (Current(snap) <==> factor == old(scale))
    {
      rescaled := rescaled || factor != scale;
      scale := factor;
      if running {
        Damage(snap, backgroundRoom, indicatorRoom);
      }
    }
  }

  // ---------------------------------------------------------------- what a surface does not keep

  /** A surface that was announced, created and configured, with its first frame drawn. */
  method Prepared(width: nat, height: nat, snap: Snapshot) returns (s: Surface)
    requires width > 0 && height > 0
    ensures fresh(s) && s.Valid() && s.created && s.Configured() && s.frame && !s.dirty && s.held == {1}
    ensures s.Current(snap) && !s.starved && s.scale == 1 && s.width == width && s.height == height
    ensures s.Back() == Background(Created(Size(width, height)), Size(width, height), true, false)
  {
    s := new Surface();
    s.SetScale(1, false, snap, true, true);
    s.Create();
    s.Configure(width, height, snap, true, true);
  }

  /** Two buffers drawn and not released: the third frame is not drawn, and the surface counts as clean all the same. */
  method StarvedFrame(first: Snapshot, second: Snapshot, third: Snapshot) returns (s: Surface)
    requires third != second
    ensures fresh(s) && s.Valid() && s.Configured() && s.starved && s.Current(second) && !s.Current(third) && !s.dirty
  {
    s := Prepared(100, 100, first);
    s.FrameDone(first, true, true);
    s.Damage(second, true, true);
    s.FrameDone(second, true, true);
    s.Damage(third, true, true);
  }

  /** A new scale before the main loop runs: what was drawn for the old one stays, and nothing is to be redrawn. */
  method StaleScale(snap: Snapshot) returns (s: Surface)
    ensures fresh(s) && s.Valid() && s.Configured() && !s.starved && !s.Current(snap) && !s.dirty
  {
    s := Prepared(100, 100, snap);
    s.SetScale(2, false, snap, true, true);
  }

  /** A new size while the compositor shows the background: the buffer it holds is destroyed. */
  method TornBackground(snap: Snapshot) returns (s: Surface)
    ensures fresh(s) && s.Valid() && s.torn
  {
    s := Prepared(100, 100, snap);
    s.FrameDone(snap, true, true);
    s.Configure(200, 100, snap, true, true);
  }

  /** A new size for which there is no memory, and the old one again: the background is gone, yet counts as attached. */
  method LostBackground(snap: Snapshot) returns (s: Surface)
    ensures fresh(s) && s.Valid() && s.frame && s.attached == Some(s.BufferSize()) && s.pool[0] == WIPED
  {
    s := Prepared(100, 100, snap);
    s.FrameDone(snap, true, true);
    s.Configure(200, 100, snap, false, true);
    s.Configure(100, 100, snap, true, true);
  }
}
