/** Pages, presses and the reading timeout of the display. */
module Presence {
  import opened Layout
  import opened Clock

  const LINES_PER_PAGE: nat := 3
  const BODY_MAX_BYTES: nat := 511
  const MAX_BODY_LINES: nat := BODY_MAX_BYTES + 1
  const MAX_PAGE_COUNT: nat := (MAX_BODY_LINES + LINES_PER_PAGE - 1) / LINES_PER_PAGE

  datatype Mode = Idle | Unread | Reading

  /** PresenceStateModel */
  datatype Model = Model(mode: Mode, page: nat, pages: nat)

  /** presence_state_message */
  function Message(pages: nat): Model {
    Model(Unread, 0, if pages == 0 then 1 else pages)
  }

  /** presence_state_short_press */
  function ShortPress(m: Model): Model {
    if m.mode.Idle? then m
    else Model(Reading, if m.page + 1 < m.pages then m.page + 1 else m.page, m.pages)
  }

  /** utf8_safe_prefix, which keeps the lead byte of a sequence that it cuts. */
  function SafePrefix(text: string, maxBytes: nat): (n: nat)
    ensures n <= maxBytes && n <= |text|
  {
    var length := if |text| < maxBytes then |text| else maxBytes;
    BackTo(text, length)
  }

  function BackTo(text: string, length: nat): (n: nat)
    requires length <= |text|
    ensures n <= length
  {
    if length > 0 && 0x80 <= text[length - 1] as int < 0xC0 then BackTo(text, length - 1) else length
  }

  /** No byte that continues a sequence is kept at the end, and nothing but such bytes goes. */
  lemma {:induction false} BackToStart(text: string, length: nat)
    requires length <= |text|
    ensures var n := BackTo(text, length);
            (n > 0 ==> !Continues(text, n - 1)) && forall k :: n <= k < length ==> Continues(text, k)
    decreases length
  {
    if length == 0 || !Continues(text, length - 1) {
    } else {
      BackToStart(text, length - 1);
    }
  }

  /**
   * The prefix ends between two sequences exactly when its last byte is a sequence of its own: the lead byte of
   * a longer sequence is kept without the rest.
   */
  lemma SafePrefixExact(text: string, maxBytes: nat)
    ensures var n := SafePrefix(text, maxBytes);
            Between(text, n) <==> n == 0 || SequenceLength(text, n - 1) == 1
  {
    var n := SafePrefix(text, maxBytes);
    BackToStart(text, if |text| < maxBytes then |text| else maxBytes);
    if !Between(text, n) {
      var q :| 0 <= q < n && q + SequenceLength(text, q) > n;
      assert !(q < n - 1);
    }
  }

  /** Even a text that fits loses the second byte of a two-byte sequence at its end. */
  lemma LastSequenceCut()
    ensures SafePrefix([0xC3 as char, 0xA9 as char], BODY_MAX_BYTES) == 1
    ensures SequenceLength([0xC3 as char, 0xA9 as char], 0) == 2
  {
    var text := [0xC3 as char, 0xA9 as char];
    assert text[0] as int == 0xC3 && text[1] as int == 0xA9;
    assert BackTo(text, 2) == BackTo(text, 1) == 1;
  }

  // ----- runs of the device -----

  /** What the device goes by; `pressed` is the time of the last press, `looked` that of the last press or update. */
  datatype Device = Device(model: Model, deadline: Ticks, timeout: nat, now: nat, pressed: nat, looked: nat)

  /** A message of some lines, a short and a long press, the passing of ticks, and presence_update. */
  datatype Event = Show(lines: nat) | Press | Hold | Elapse(ticks: nat) | Poll

  function Fresh(timeout: nat): Device {
    Device(Model(Idle, 0, 1), 0, timeout, 0, 0, 0)
  }

  function Step(d: Device, e: Event): Device {
    match e
    case Show(lines) => d.(model := Message(WithFallback(PagesFor(lines))), deadline := 0)
    case Press =>
      if d.model.mode.Idle? then d
      else
        d.(model := ShortPress(d.model), deadline := (Tick(d.now) + d.timeout) % TICK_MODULUS,
           pressed := d.now, looked := d.now)
    case Hold => d.(model := d.model.(mode := Idle), deadline := 0)
    case Elapse(ticks) => d.(now := d.now + ticks)
    case Poll =>
      var expired := d.model.mode.Reading? && Reached(Tick(d.now), d.deadline);
      d.(model := if expired then d.model.(mode := Idle) else d.model, looked := d.now)
  }

  function Run(d: Device, events: seq<Event>): Device
    decreases |events|
  {
    if events == [] then d else Run(Step(d, events[0]), events[1..])
  }

  /** A message is laid out, and less than half the range of the counter goes by before an update. */
  predicate Timely(d: Device, e: Event) {
    (e.Show? ==> 0 < e.lines <= MAX_BODY_LINES) && (e.Poll? ==> d.now - d.looked < TICK_MODULUS / 2)
  }

  predicate AllTimely(d: Device, events: seq<Event>)
    decreases |events|
  {
    events == [] || (Timely(d, events[0]) && AllTimely(Step(d, events[0]), events[1..]))
  }

  /** The page is one of the pages; a reading device has been looked at before its time ran out. */
  predicate Sound(d: Device) {
    && d.model.page < d.model.pages <= MAX_PAGE_COUNT && 0 < d.timeout < TICK_MODULUS / 2
    && d.pressed <= d.looked <= d.now
    && (d.model.mode.Reading? ==> d.deadline == Tick(d.pressed + d.timeout) && d.looked < d.pressed + d.timeout)
  }

  /** When an update that is in time ends the reading. */
  lemma PollExact(d: Device)
    requires Sound(d) && Timely(d, Poll)
    ensures Sound(Step(d, Poll))
    ensures Step(d, Poll).model.mode ==
            if d.model.mode.Reading? && d.now >= d.pressed + d.timeout then Idle else d.model.mode
  {
    hide Tick, Reached;
    if d.model.mode.Reading? { ReachedExact(d.now, d.pressed + d.timeout); }
  }

  lemma StepSound(d: Device, e: Event)
    requires Sound(d) && Timely(d, e)
    ensures Sound(Step(d, e)) && Step(d, e).timeout == d.timeout
  {
    hide Tick, Reached, PagesFor, WithFallback;
    match e
    case Show(lines) => CountFits(lines);
    case Press => TickLater(d.now, d.timeout);
    case Poll => PollExact(d);
    case _ =>
  }

  lemma {:induction false} RunSound(d: Device, events: seq<Event>)
    requires Sound(d) && AllTimely(d, events)
    ensures Sound(Run(d, events))
    decreases |events|
  {
    hide Sound, Step, Timely;
    if events == [] {
    } else {
      StepSound(d, events[0]);
      RunSound(Step(d, events[0]), events[1..]);
    }
  }

  /** Only a press takes a message off the display: without one the device stays unread on the first page. */
  lemma {:induction false} UnreadStays(d: Device, events: seq<Event>)
    requires d.model.mode.Unread? && d.model.page == 0
    requires forall i :: 0 <= i < |events| ==> !events[i].Press? && !events[i].Hold?
    ensures Run(d, events).model.mode.Unread? && Run(d, events).model.page == 0
    decreases |events|
  {
    if events == [] {
    } else {
      UnreadStays(Step(d, events[0]), events[1..]);
    }
  }

  function Presses(events: seq<Event>): nat {
    if events == [] then 0 else (if events[0].Press? then 1 else 0) + Presses(events[1..])
  }

  lemma {:induction false} IdleStays(d: Device, events: seq<Event>)
    requires d.model.mode.Idle? && forall i :: 0 <= i < |events| ==> !events[i].Show?
    ensures Run(d, events).model.mode.Idle?
    decreases |events|
  {
    if events == [] {
    } else {
      IdleStays(Step(d, events[0]), events[1..]);
    }
  }

  /** As long as a device is read, each press has gone one page on, and stops at the last. */
  lemma {:induction false} ReadsOn(d: Device, events: seq<Event>)
    requires d.model.page < d.model.pages && forall i :: 0 <= i < |events| ==> !events[i].Show?
    requires !Run(d, events).model.mode.Idle?
    ensures var page := d.model.page + Presses(events);
            Run(d, events).model.page == if page < d.model.pages then page else d.model.pages - 1
    decreases |events|
  {
    hide Reached, Tick;
    if d.model.mode.Idle? {
      IdleStays(d, events);
    } else if events == [] {
    } else {
      ReadsOn(Step(d, events[0]), events[1..]);
    }
  }

  /** An update at or after a moment. */
  predicate PollFrom(events: seq<Event>, now: nat, due: nat)
    decreases |events|
  {
    events != [] &&
    ((events[0].Poll? && now >= due)
     || PollFrom(events[1..], if events[0].Elapse? then now + events[0].ticks else now, due))
  }

  /** Left alone, a device goes idle exactly at the first update at or after its last press and its timeout. */
  lemma {:induction false} ReadingUntilTimeout(d: Device, events: seq<Event>)
    requires Sound(d) && d.model.mode.Reading? && AllTimely(d, events)
    requires forall i :: 0 <= i < |events| ==> events[i].Elapse? || events[i].Poll?
    ensures Run(d, events).model.mode == if PollFrom(events, d.now, d.pressed + d.timeout) then Idle else Reading
    decreases |events|
  {
    hide Sound, Reached, Tick;
    if events == [] {
    } else {
      var next := Step(d, events[0]);
      StepSound(d, events[0]);
      if events[0].Poll? { PollExact(d); }
      if next.model.mode.Idle? {
        IdleStays(next, events[1..]);
      } else {
        ReadingUntilTimeout(next, events[1..]);
      }
    }
  }

  /** The display's static data, as the device changes it under the mutex. */
  class Display {
    var model: Model
    var page: nat
    var pages: nat
    var deadline: Ticks
    var body: string
    var lines: array<Line>
    var lineCount: nat
    const timeoutTicks: nat

    ghost var now: nat
    ghost var pressed: nat
    ghost var looked: nat

    constructor (timeoutTicks: nat)
      requires 0 < timeoutTicks < TICK_MODULUS / 2
      ensures Valid() && State() == Fresh(timeoutTicks) && fresh(lines)
    {
      model := Model(Idle, 0, 1);
      page, pages, deadline := 0, 1, 0;
      body, lineCount := "", 0;
      lines := new Line[MAX_BODY_LINES];
      this.timeoutTicks := timeoutTicks;
      now, pressed, looked := 0, 0, 0;
    }

    /**
     * The device is sound, and an unread or reading one shows the lines of its message, all of them on its pages.
     */
    ghost predicate Valid()
      reads this, lines
    {
      && lines.Length == MAX_BODY_LINES && lineCount <= MAX_BODY_LINES && Sound(State())
      && page == model.page && pages == model.pages
      && (!model.mode.Idle? ==>
            Laid(body, lines[..lineCount]) && Complete(body, lines[..lineCount]) && pages == PagesFor(lineCount))
    }

    ghost function State(): Device
      reads this
    {
      Device(model, deadline, timeoutTicks, now, pressed, looked)
    }

    /** Time goes on; the tick counter follows it. */
    ghost method Pass(elapsed: nat)
      requires Valid()
      modifies this`now
      ensures Valid() && State() == Step(old(State()), Elapse(elapsed))
    {
      hide Laid, Complete, Tick, PagesFor;
      now := now + elapsed;
    }

    /** presence_show_message */
    method ShowMessage(text: string)
      requires Valid()
      modifies this, lines
      ensures Valid() && lines == old(lines) && 0 < lineCount && State() == Step(old(State()), Show(lineCount))
      ensures model.mode.Unread? && page == 0 && body == text[..SafePrefix(text, BODY_MAX_BYTES)]
    {
      hide Laid, Tick;
      body := text[..SafePrefix(text, BODY_MAX_BYTES)];
      lineCount := LayoutBody(body, lines);
      CountFits(lineCount);
      pages := WithFallback(PagesFor(lineCount));
      model := Message(pages);
      page := model.page;
      pages := model.pages;
      deadline := 0;
    }

    /** presence_next_page; the tick is read while the mutex is held. */
    method NextPage(tick: Ticks)
      requires Valid() && tick == Tick(now)
      modifies this
      ensures Valid() && lines == old(lines) && body == old(body) && lineCount == old(lineCount)
      ensures State() == Step(old(State()), Press)
      ensures !old(model.mode).Idle? ==>
                model.mode.Reading? && pressed == now && pages == old(pages)
                && page == if old(page) + 1 < pages then old(page) + 1 else old(page)
    {
      hide Laid, Complete, Tick, PagesFor;
      if !model.mode.Idle? {
        model := ShortPress(model);
        page := model.page;
        deadline := (tick + timeoutTicks) % TICK_MODULUS;
        TickLater(now, timeoutTicks);
        pressed, looked := now, now;
      }
    }

    /** presence_acknowledge */
    method Acknowledge()
      requires Valid()
      modifies this
      ensures Valid() && lines == old(lines) && State() == Step(old(State()), Hold)
    {
      hide Laid, Complete, Tick, PagesFor;
      model := model.(mode := Idle);
      deadline := 0;
    }

    /**
     * presence_update: with less than half the tick range since the last update or press, a reading device goes
     * idle exactly when its timeout has passed since the last press, and no other device changes.
     */
    method Update(tick: Ticks)
      requires Valid() && tick == Tick(now) && now - looked < TICK_MODULUS / 2
      modifies this
      ensures Valid() && lines == old(lines) && body == old(body) && lineCount == old(lineCount)
      ensures State() == Step(old(State()), Poll)
      ensures model.mode == if old(model.mode).Reading? && now >= pressed + timeoutTicks then Idle else old(model.mode)
    {
      hide Laid, Complete, Tick, PagesFor, Reached;
      PollExact(State());
      if model.mode.Reading? && Reached(tick, deadline) {
        model := model.(mode := Idle);
      }
      looked := now;
    }

    /** The rows that presence_draw_locked takes from the body. */
    method Rows() returns (rows: seq<string>)
      requires Valid() && !model.mode.Idle?
      ensures |rows| == LINES_PER_PAGE
      ensures forall r :: 0 <= r < LINES_PER_PAGE ==> rows[r] == Row(body, lines[..lineCount], page, r)
    {
      hide Laid, Complete;
      rows := [];
      var index := 0;
      while index < LINES_PER_PAGE
        invariant index <= LINES_PER_PAGE && |rows| == index
        invariant forall r :: 0 <= r < index ==> rows[r] == Row(body, lines[..lineCount], page, r)
      {
        var lineIndex := page * LINES_PER_PAGE + index;
        var line := "";
        if lineIndex < lineCount {
          LineInBody(body, lines[..lineCount], lineIndex);
          line := body[lines[lineIndex].start..lines[lineIndex].start + lines[lineIndex].length];
        }
        rows := rows + [line];
        index := index + 1;
      }
    }
  }

  /** The text of a row on a page: a line of the layout, or nothing. */
  function Row(body: string, lines: seq<Line>, page: nat, r: nat): string {
    var k := page * LINES_PER_PAGE + r;
    if k < |lines| && End(lines[k]) <= |body| then body[lines[k].start..End(lines[k])] else ""
  }

  lemma LineInBody(body: string, lines: seq<Line>, k: nat)
    requires Laid(body, lines) && k < |lines|
    ensures End(lines[k]) <= |body|
  {
  }

  function PagesFor(lineCount: nat): nat {
    (lineCount + LINES_PER_PAGE - 1) / LINES_PER_PAGE
  }

  /** A page count that is out of range becomes one. */
  function WithFallback(pages: nat): nat {
    if pages == 0 || pages > MAX_PAGE_COUNT then 1 else pages
  }

  /** The page count of a layout never needs its fallback. */
  lemma CountFits(lineCount: nat)
    requires 0 < lineCount <= MAX_BODY_LINES
    ensures WithFallback(PagesFor(lineCount)) == PagesFor(lineCount) <= MAX_PAGE_COUNT
  {
  }

  // ----- what the pages show -----

  /** The text of each line. */
  function Texts(body: string, lines: seq<Line>): seq<string> {
    seq(|lines|, k requires 0 <= k < |lines| =>
      if End(lines[k]) <= |body| then body[lines[k].start..End(lines[k])] else "")
  }

  /** The rows of the first pages, one page after the other. */
  function Shown(body: string, lines: seq<Line>, pages: nat): (rows: seq<string>)
    ensures |rows| == pages * LINES_PER_PAGE
    decreases pages
  {
    if pages == 0 then []
    else
      Shown(body, lines, pages - 1)
      + seq(LINES_PER_PAGE, r requires 0 <= r < LINES_PER_PAGE => Row(body, lines, pages - 1, r))
  }

  lemma {:induction false} ShownAt(body: string, lines: seq<Line>, pages: nat, k: nat)
    requires k < pages * LINES_PER_PAGE
    ensures Shown(body, lines, pages)[k] == if k < |lines| then Texts(body, lines)[k] else ""
    decreases pages
  {
    if k >= (pages - 1) * LINES_PER_PAGE {
    } else {
      ShownAt(body, lines, pages - 1, k);
    }
  }

  /** Page after page, the device shows every line of its message once and in order, then less than a page of blanks. */
  lemma PagesShowLines(body: string, lines: seq<Line>)
    ensures var rows := Shown(body, lines, PagesFor(|lines|));
            |lines| <= |rows| < |lines| + LINES_PER_PAGE && rows[..|lines|] == Texts(body, lines)
            && forall k :: |lines| <= k < |rows| ==> rows[k] == ""
  {
    var rows := Shown(body, lines, PagesFor(|lines|));
    forall k | 0 <= k < |rows|
      ensures rows[k] == if k < |lines| then Texts(body, lines)[k] else ""
    {
      ShownAt(body, lines, PagesFor(|lines|), k);
    }
  }
}
