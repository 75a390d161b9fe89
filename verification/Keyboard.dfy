/** The keyboard driver: scancodes become events; events go to the handler and
    into a ring that forgets the oldest when it is full. */
module Keyboard {
  import opened Common
  import R = Ring
  import T = TtySpec

  const SIZE: nat := 256             // KEYBOARD_BUFFER_SIZE
  datatype Modifiers = Modifiers(leftShift: bool, rightShift: bool, leftCtrl: bool, leftAlt: bool,
                                 caps: bool, num: bool, scroll: bool)

  const NONE := Modifiers(false, false, false, false, false, false, false)

  datatype Event = Event(code: nat, ascii: char, pressed: bool, modifiers: Modifiers)

  /** The two 128-entry character tables of the layout. */
  datatype Layout = Layout(plain: seq<char>, shifted: seq<char>)

  predicate LayoutOk(l: Layout) { |l.plain| == 128 && |l.shifted| == 128 }

  // ---- Modifiers and LEDs -------------------------------------------------

  const CAPS: Byte := 0x3A
  const NUM: Byte := 0x45
  const SCROLL: Byte := 0x46

  function Update(m: Modifiers, code: nat, pressed: bool): Modifiers
  {
    if code == 0x2A then m.(leftShift := pressed)
    else if code == 0x36 then m.(rightShift := pressed)
    else if code == 0x1D then m.(leftCtrl := pressed)
    else if code == 0x38 then m.(leftAlt := pressed)
    else if code == CAPS && pressed then m.(caps := !m.caps)
    else if code == NUM && pressed then m.(num := !m.num)
    else if code == SCROLL && pressed then m.(scroll := !m.scroll)
    else m
  }

  function UpdateLeds(leds: bv8, code: nat, pressed: bool): bv8
  {
    if !pressed then leds
    else if code == CAPS then leds ^ 4
    else if code == NUM then leds ^ 2
    else if code == SCROLL then leds ^ 1
    else leds
  }

  /** The LED byte that shows the three locks. */
  function Lights(m: Modifiers): bv8
  {
    (if m.caps then 4 else 0) | (if m.num then 2 else 0) | (if m.scroll then 1 else 0)
  }

  predicate LocksToggled(m: Modifiers, m': Modifiers, caps: bool, num: bool, scroll: bool)
  {
    m'.caps == (m.caps != caps) && m'.num == (m.num != num) && m'.scroll == (m.scroll != scroll)
  }

  lemma ReleaseStep(m: Modifiers, code: nat)
    ensures LocksToggled(m, Update(m, code, false), false, false, false)
  {
  }

  lemma PressStep(m: Modifiers, code: nat)
    ensures LocksToggled(m, Update(m, code, true), code == CAPS, code == NUM, code == SCROLL)
  {
  }

  lemma LightsToggled(m: Modifiers, m': Modifiers, code: nat)
    requires LocksToggled(m, m', code == CAPS, code == NUM, code == SCROLL)
    ensures UpdateLeds(Lights(m), code, true) == Lights(m')
  {
  }

  lemma LightsFollow(m: Modifiers, code: nat, pressed: bool)
    ensures UpdateLeds(Lights(m), code, pressed) == Lights(Update(m, code, pressed))
  {
    if pressed {
      PressStep(m, code);
      LightsToggled(m, Update(m, code, true), code);
    } else {
      ReleaseStep(m, code);
    }
  }

  function SwapCase(c: char): char
  {
    if 'a' <= c <= 'z' then (c as int - 32) as char
    else if 'A' <= c <= 'Z' then (c as int + 32) as char
    else c
  }

  function Keypad(code: nat, c: char): char
  {
    match code
    case 0x47 => '7' case 0x48 => '8' case 0x49 => '9'
    case 0x4B => '4' case 0x4C => '5' case 0x4D => '6'
    case 0x4F => '1' case 0x50 => '2' case 0x51 => '3'
    case 0x52 => '0' case 0x53 => '.'
    case _ => c
  }

  /** scancode_to_ascii. */
  function Ascii(l: Layout, code: nat, m: Modifiers): char
    requires LayoutOk(l) && code < 128
  {
    var c := if m.leftShift || m.rightShift then l.shifted[code] else l.plain[code];
    var d := if m.caps then SwapCase(c) else c;
    if m.num then Keypad(code, d) else d
  }

  /** A letter key off the keypad, whose shifted letter is the capital of the plain one. */
  predicate LetterKey(l: Layout, code: nat)
    requires LayoutOk(l)
  {
    && code < 128 && !(0x47 <= code <= 0x53)
    && 'a' <= l.plain[code] <= 'z' && l.shifted[code] as int == 'A' as int + (l.plain[code] as int - 'a' as int)
  }

  /** Such a key gives the capital exactly when one of shift and caps lock is on, not
      both. */
  lemma ShiftXorCaps(l: Layout, code: nat, m: Modifiers)
    requires LayoutOk(l) && LetterKey(l, code)
    ensures Ascii(l, code, m) ==
      if (m.leftShift || m.rightShift) != m.caps then l.shifted[code] else l.plain[code]
  {
    assert Keypad(code, l.shifted[code]) == l.shifted[code];
  }

  // ---- Runs ---------------------------------------------------------------

  /** What the driver is given. */
  datatype Input =
    | Scan(byte: Byte)     // a byte from the controller
    | ReadEvent            // keyboard_read_event
    | FlushEvents          // keyboard_flush

  /** log: every event so far; queue: those in the ring. */
  datatype Board = Board(mods: Modifiers, leds: bv8, queue: seq<Event>, log: seq<Event>)

  const START := Board(NONE, 0, [], [])

  /** The key of a scancode byte: the top bit tells a release from a press. */
  function Code(byte: Byte): nat { if byte < 128 then byte else byte - 128 }

  /** The event a scancode byte makes: it carries the modifiers as they were before
      it, and the character under the modifiers as they are after it. */
  function EventOf(l: Layout, m: Modifiers, byte: Byte): Event
    requires LayoutOk(l)
  {
    var pressed, code := byte < 128, Code(byte);
    Event(code, Ascii(l, code, Update(m, code, pressed)), pressed, m)
  }

  function Push(q: seq<Event>, e: Event): (r: seq<Event>)
    requires |q| <= SIZE
    ensures 0 < |r| <= SIZE
  {
    (if |q| >= SIZE then q[1..] else q) + [e]
  }

  function Step(l: Layout, b: Board, i: Input): (r: Board)
    requires LayoutOk(l) && |b.queue| <= SIZE
    ensures |r.queue| <= SIZE
  {
    match i
    case Scan(byte) =>
      var e := EventOf(l, b.mods, byte);
      Board(Update(b.mods, e.code, e.pressed), UpdateLeds(b.leds, e.code, e.pressed), Push(b.queue, e), b.log + [e])
    case ReadEvent => if b.queue == [] then b else b.(queue := b.queue[1..])
    case FlushEvents => b.(queue := [])
  }

  function Run(l: Layout, inputs: seq<Input>): (r: Board)
    requires LayoutOk(l)
    ensures |r.queue| <= SIZE
  {
    if inputs == [] then START else Step(l, Run(l, inputs[..|inputs|-1]), inputs[|inputs|-1])
  }

  // ---- Locks and LEDs -----------------------------------------------------

  /** How often a key was pressed. */
  function Presses(inputs: seq<Input>, code: Byte): nat
  {
    if inputs == [] then 0
    else Presses(inputs[..|inputs|-1], code) + if inputs[|inputs|-1] == Scan(code) then 1 else 0
  }

  /** The LED byte always shows the three locks and nothing else. */
  lemma {:induction false} LedsShowLocks(l: Layout, inputs: seq<Input>)
    requires LayoutOk(l)
    ensures Run(l, inputs).leds == Lights(Run(l, inputs).mods)
  {
    if inputs != [] {
      var before, i := inputs[..|inputs|-1], inputs[|inputs|-1];
      LedsShowLocks(l, before);
      if i.Scan? { LightsFollow(Run(l, before).mods, Code(i.byte), i.byte < 128); }
    }
  }

  lemma OddStep(n: nat, b: bool)
    ensures ((n + if b then 1 else 0) % 2 == 1) == ((n % 2 == 1) != b)
  {
  }

  lemma LockStep(m: Modifiers, byte: Byte)
    ensures LocksToggled(m, Update(m, Code(byte), byte < 128), byte == CAPS, byte == NUM, byte == SCROLL)
  {
    if byte < 128 { PressStep(m, byte); } else { ReleaseStep(m, byte - 128); }
  }

  lemma ModsStep(l: Layout, inputs: seq<Input>)
    requires LayoutOk(l) && inputs != []
    ensures var before, i := inputs[..|inputs|-1], inputs[|inputs|-1];
      Run(l, inputs).mods == if i.Scan? then Update(Run(l, before).mods, Code(i.byte), i.byte < 128) else Run(l, before).mods
  {
  }

  /** A lock is on exactly when its key was pressed an odd number of times. */
  lemma {:induction false} LocksCountPresses(l: Layout, inputs: seq<Input>)
    requires LayoutOk(l)
    ensures Run(l, inputs).mods.caps == (Presses(inputs, CAPS) % 2 == 1)
    ensures Run(l, inputs).mods.num == (Presses(inputs, NUM) % 2 == 1)
    ensures Run(l, inputs).mods.scroll == (Presses(inputs, SCROLL) % 2 == 1)
  {
    if inputs != [] {
      var before, i := inputs[..|inputs|-1], inputs[|inputs|-1];
      LocksCountPresses(l, before);
      OddStep(Presses(before, CAPS), i == Scan(CAPS));
      OddStep(Presses(before, NUM), i == Scan(NUM));
      OddStep(Presses(before, SCROLL), i == Scan(SCROLL));
      ModsStep(l, inputs);
      if i.Scan? { LockStep(Run(l, before).mods, i.byte); }
    }
  }

  // ---- Keys held down, and what they make of an event ---------------------

  /** The last byte about this key was a press. */
  predicate Down(inputs: seq<Input>, code: nat)
  {
    inputs != [] &&
    match inputs[|inputs|-1]
    case Scan(byte) => byte == code || (byte != code + 128 && Down(inputs[..|inputs|-1], code))
    case _ => Down(inputs[..|inputs|-1], code)
  }

  /** Modifiers that are exactly the keys 0x2A, 0x36, 0x1D and 0x38 held down, and
      the locks whose keys were pressed an odd number of times. */
  predicate FromInputs(m: Modifiers, inputs: seq<Input>)
  {
    && m.leftShift == Down(inputs, 0x2A) && m.rightShift == Down(inputs, 0x36)
    && m.leftCtrl == Down(inputs, 0x1D) && m.leftAlt == Down(inputs, 0x38)
    && m.caps == (Presses(inputs, 0x3A) % 2 == 1)
    && m.num == (Presses(inputs, 0x45) % 2 == 1)
    && m.scroll == (Presses(inputs, 0x46) % 2 == 1)
  }

  /** A modifier key is held as its last byte tells. */
  lemma HeldStep(m: Modifiers, code: nat, pressed: bool)
    ensures Update(m, code, pressed).leftShift == if code == 0x2A then pressed else m.leftShift
    ensures Update(m, code, pressed).rightShift == if code == 0x36 then pressed else m.rightShift
    ensures Update(m, code, pressed).leftCtrl == if code == 0x1D then pressed else m.leftCtrl
    ensures Update(m, code, pressed).leftAlt == if code == 0x38 then pressed else m.leftAlt
  {
    if code == 0x2A {
    } else if code == 0x36 {
    } else if code == 0x1D {
    } else if code == 0x38 {
    } else {
      OthersHeld(m, code, pressed);
    }
  }

  lemma OthersHeld(m: Modifiers, code: nat, pressed: bool)
    requires code != 0x2A && code != 0x36 && code != 0x1D && code != 0x38
    ensures exists caps, num, scroll :: Update(m, code, pressed) == m.(caps := caps, num := num, scroll := scroll)
  {
    var u := Update(m, code, pressed);
    assert u == m.(caps := u.caps, num := u.num, scroll := u.scroll);
  }

  lemma DownNext(inputs: seq<Input>, key: nat)
    requires inputs != [] && key < 128
    ensures var before, i := inputs[..|inputs|-1], inputs[|inputs|-1];
      Down(inputs, key) ==
        if i.Scan? && Code(i.byte) == key then i.byte < 128 else Down(before, key)
  {
  }

  /** After any run the modifiers are those that the bytes alone tell. */
  lemma {:induction false} ModifiersHeld(l: Layout, inputs: seq<Input>)
    requires LayoutOk(l)
    ensures FromInputs(Run(l, inputs).mods, inputs)
  {
    LocksCountPresses(l, inputs);
    if inputs != [] {
      var before, i := inputs[..|inputs|-1], inputs[|inputs|-1];
      ModifiersHeld(l, before);
      ModsStep(l, inputs);
      DownNext(inputs, 0x2A);
      DownNext(inputs, 0x36);
      DownNext(inputs, 0x1D);
      DownNext(inputs, 0x38);
      if i.Scan? { HeldStep(Run(l, before).mods, Code(i.byte), i.byte < 128); }
    }
  }

  /** The event of the last byte: its key and direction are those of the byte, its
      modifiers those held before it. */
  lemma LastEvent(l: Layout, before: seq<Input>, byte: Byte)
    requires LayoutOk(l)
    ensures Run(l, before + [Scan(byte)]).log != []
    ensures var log := Run(l, before + [Scan(byte)]).log; var e := log[|log|-1];
      && log == Run(l, before).log + [e]
      && e.code < 128 && e.code + (if e.pressed then 0 else 128) == byte
      && FromInputs(e.modifiers, before)
      && e.ascii == Ascii(l, e.code, Run(l, before + [Scan(byte)]).mods)
  {
    assert (before + [Scan(byte)])[..|before|] == before;
    ModifiersHeld(l, before);
  }

  /** Over any run, the press of a letter key makes an event with the capital if and
      only if a shift key is down and caps lock was pressed an even number of times, or
      the other way round. */
  lemma LetterTyped(l: Layout, before: seq<Input>, byte: Byte)
    requires LayoutOk(l) && byte < 128 && LetterKey(l, byte)
    ensures Run(l, before + [Scan(byte)]).log != []
    ensures var all := before + [Scan(byte)]; var log := Run(l, all).log; var e := log[|log|-1];
      && e.pressed && e.code == byte
      && e.ascii ==
        if (Down(all, 0x2A) || Down(all, 0x36)) != (Presses(all, 0x3A) % 2 == 1) then l.shifted[byte] else l.plain[byte]
  {
    LastEvent(l, before, byte);
    ModifiersHeld(l, before + [Scan(byte)]);
    ShiftXorCaps(l, byte, Run(l, before + [Scan(byte)]).mods);
  }

  /** Caps lock does not matter to characters that are no letters, num lock not to keys
      off the keypad. */
  lemma LocksDoNotMatter(l: Layout, code: nat, m: Modifiers, caps: bool, num: bool)
    requires LayoutOk(l) && code < 128 && !(0x47 <= code <= 0x53)
    requires var c := if m.leftShift || m.rightShift then l.shifted[code] else l.plain[code];
      c < 'A' || 'Z' < c < 'a' || 'z' < c
    ensures Ascii(l, code, m.(caps := caps, num := num)) == if m.leftShift || m.rightShift then l.shifted[code] else l.plain[code]
  {
  }

  /** The keypad with num lock on, that is, pressed an odd number of times: three rows
      of three digits, 9 at the top right, then 0 and the point. */
  lemma KeypadTyped(l: Layout, before: seq<Input>, row: nat, column: nat)
    requires LayoutOk(l) && row < 3 && column < 3 && Presses(before, 0x45) % 2 == 1
    ensures LastCharacter(l, before, 0x47 + 4 * row + column) as int == '0' as int + 7 - 3 * row + column
    ensures LastCharacter(l, before, 0x52) == '0' && LastCharacter(l, before, 0x53) == '.'
  {
    ModifiersHeld(l, before);
    KeypadDigit(0x47 + 4 * row + column, row, column, NUL);
    PressedCharacter(l, before, 0x47 + 4 * row + column);
    DigitShown(l, 0x47 + 4 * row + column, Run(l, before).mods);
    PressedCharacter(l, before, 0x52);
    PressedCharacter(l, before, 0x53);
  }

  lemma KeypadDigit(code: nat, row: nat, column: nat, c: char)
    requires row < 3 && column < 3 && code == 0x47 + 4 * row + column
    ensures Keypad(code, c) as int == '0' as int + 7 - 3 * row + column
  {
  }

  lemma DigitShown(l: Layout, code: nat, m: Modifiers)
    requires LayoutOk(l) && code < 128 && m.num && Keypad(code, NUL) != NUL
    ensures Ascii(l, code, m) == Keypad(code, NUL)
  {
  }

  /** The character of the event that this byte makes after the run. */
  function LastCharacter(l: Layout, before: seq<Input>, byte: Byte): char
    requires LayoutOk(l)
  {
    LastEvent(l, before, byte);
    var log := Run(l, before + [Scan(byte)]).log;
    log[|log|-1].ascii
  }

  lemma PressedCharacter(l: Layout, before: seq<Input>, byte: Byte)
    requires LayoutOk(l) && 0x47 <= byte <= 0x53
    ensures LastCharacter(l, before, byte) == Ascii(l, byte, Run(l, before).mods)
  {
    LastEvent(l, before, byte);
    assert (before + [Scan(byte)])[..|before|] == before;
  }

  /** The LED byte after any run: bit 2 for caps lock, bit 1 for num lock, bit 0 for
      scroll lock, each set if its key was pressed an odd number of times. */
  lemma LedsCountPresses(l: Layout, inputs: seq<Input>)
    requires LayoutOk(l)
    ensures Run(l, inputs).leds ==
      (if Presses(inputs, 0x3A) % 2 == 1 then 4 else 0) | (if Presses(inputs, 0x45) % 2 == 1 then 2 else 0) |
      (if Presses(inputs, 0x46) % 2 == 1 then 1 else 0)
  {
    LedsShowLocks(l, inputs);
    LocksCountPresses(l, inputs);
  }

  // ---- The ring as a window on the log ------------------------------------

  /** Position in the log of the next event to be read: reading moves past one
      event, an event that finds the ring full pushes the oldest out, a flush skips
      them all. */
  function Next(l: Layout, inputs: seq<Input>): nat
    requires LayoutOk(l)
  {
    if inputs == [] then 0
    else
      var before, i := inputs[..|inputs|-1], inputs[|inputs|-1];
      var n, total := Next(l, before), |Run(l, before).log|;
      match i
      case Scan(_) => if n + SIZE < total + 1 then total + 1 - SIZE else n
      case ReadEvent => if n < total then n + 1 else n
      case FlushEvents => total
  }

  /** The ring holds exactly the events of the log from that position on, in order. */
  lemma {:induction false} QueueIsLogTail(l: Layout, inputs: seq<Input>)
    requires LayoutOk(l)
    ensures var b := Run(l, inputs); var n := Next(l, inputs);
      n <= |b.log| && b.queue == b.log[n..]
  {
    if inputs != [] {
      var before := inputs[..|inputs|-1];
      QueueIsLogTail(l, before);
      TailStep(Run(l, before).log, Next(l, before));
    }
  }

  lemma TailStep(log: seq<Event>, n: nat)
    requires n <= |log|
    ensures forall e: Event :: (log + [e])[n..] == log[n..] + [e]
    ensures n < |log| ==> log[n..][1..] == log[n+1..]
  {
    forall e: Event ensures (log + [e])[n..] == log[n..] + [e] { }
  }

  /** The ring holds the latest 256 events: one more is added until there are so many,
      then each pushes the oldest out. */
  lemma RingCapacity(l: Layout, before: seq<Input>, byte: Byte)
    requires LayoutOk(l)
    ensures var q, r := Run(l, before).queue, Run(l, before + [Scan(byte)]).queue;
      && |q| <= 256 && |r| == Min(256, |q| + 1)
      && (if |q| < 256 then q <= r else q[1..] <= r)
  {
    assert (before + [Scan(byte)])[..|before|] == before;
  }

  /** The events handed to readers. */
  function EventsRead(l: Layout, inputs: seq<Input>): seq<Event>
    requires LayoutOk(l)
  {
    if inputs == [] then []
    else
      var before, i := inputs[..|inputs|-1], inputs[|inputs|-1];
      var queue := Run(l, before).queue;
      EventsRead(l, before) + if i.ReadEvent? && queue != [] then [queue[0]] else []
  }

  /** Where in the log they are. */
  function Positions(l: Layout, inputs: seq<Input>): seq<nat>
    requires LayoutOk(l)
  {
    if inputs == [] then []
    else
      var before, i := inputs[..|inputs|-1], inputs[|inputs|-1];
      Positions(l, before) + if i.ReadEvent? && Run(l, before).queue != [] then [Next(l, before)] else []
  }

  /** Each position is below the next. */
  predicate Rising(ps: seq<nat>) { forall i, j :: 0 <= i < j < |ps| ==> ps[i] < ps[j] }

  /** events are those of the log at positions ps, in order, all below n. */
  predicate AtPositions(events: seq<Event>, log: seq<Event>, ps: seq<nat>, n: nat)
  {
    && |events| == |ps| && Rising(ps)
    && forall i :: 0 <= i < |ps| ==> ps[i] < n && ps[i] < |log| && events[i] == log[ps[i]]
  }

  lemma AtPositionsNext(events: seq<Event>, log: seq<Event>, ps: seq<nat>, n: nat)
    requires AtPositions(events, log, ps, n) && n < |log|
    ensures AtPositions(events + [log[n]], log, ps + [n], n + 1)
  {
  }

  lemma AtPositionsKept(events: seq<Event>, log: seq<Event>, log': seq<Event>, ps: seq<nat>, n: nat, n': nat)
    requires AtPositions(events, log, ps, n) && n <= n' && log <= log'
    ensures AtPositions(events, log', ps, n')
  {
  }

  /** What readers get are events of the log at rising positions: in order, and none
      twice. */
  lemma {:induction false} ReadOnce(l: Layout, inputs: seq<Input>)
    requires LayoutOk(l)
    ensures AtPositions(EventsRead(l, inputs), Run(l, inputs).log, Positions(l, inputs), Next(l, inputs))
  {
    if inputs != [] {
      var before, i := inputs[..|inputs|-1], inputs[|inputs|-1];
      var b, n := Run(l, before), Next(l, before);
      ReadOnce(l, before);
      QueueIsLogTail(l, before);
      if i.ReadEvent? && b.queue != [] {
        AtPositionsNext(EventsRead(l, before), b.log, Positions(l, before), n);
      } else {
        AtPositionsKept(EventsRead(l, before), b.log, Run(l, inputs).log, Positions(l, before), n, Next(l, inputs));
      }
    }
  }

  /** Events pushed out of a full ring, or flushed. */
  function Dropped(l: Layout, inputs: seq<Input>): nat
    requires LayoutOk(l)
  {
    if inputs == [] then 0
    else
      var before, i := inputs[..|inputs|-1], inputs[|inputs|-1];
      var queue := Run(l, before).queue;
      Dropped(l, before) +
        match i
        case Scan(_) => if |queue| == SIZE then 1 else 0
        case ReadEvent => 0
        case FlushEvents => |queue|
  }

  /** Every event is accounted for: read, waiting, pushed out by 256 newer ones, or
      flushed. */
  lemma {:induction false} AllAccounted(l: Layout, inputs: seq<Input>)
    requires LayoutOk(l)
    ensures |Run(l, inputs).log| == |EventsRead(l, inputs)| + |Run(l, inputs).queue| + Dropped(l, inputs)
  {
    if inputs != [] { AllAccounted(l, inputs[..|inputs|-1]); }
  }

  // ---- What the tty receives ----------------------------------------------

  /** tty_keyboard_handler's filter: non-zero characters of presses, in order. */
  function Typed(events: seq<Event>): seq<char>
  {
    if events == [] then []
    else
      var e := events[|events|-1];
      Typed(events[..|events|-1]) + if e.pressed && e.ascii != NUL then [e.ascii] else []
  }

  /** A line editor behind the tty's keyboard handler, fed these events. */
  function Fed(e: T.Editor, events: seq<Event>): (r: T.Editor)
    requires T.EditorOk(e)
    ensures T.EditorOk(r)
  {
    if events == [] then e
    else
      var before, last := Fed(e, events[..|events|-1]), events[|events|-1];
      if last.pressed && last.ascii != NUL then T.Step(before, T.Key(last.ascii)) else before
  }

  /** It ends up where typing the filtered characters would take it. */
  lemma {:induction false} FedIsTyped(e: T.Editor, events: seq<Event>)
    requires T.EditorOk(e)
    ensures Fed(e, events) == T.Run(e, T.Keys(Typed(events)))
  {
    if events != [] {
      FedIsTyped(e, events[..|events|-1]);
      var before, all := Typed(events[..|events|-1]), Typed(events);
      if all == before {
      } else {
        assert T.Keys(all)[..|all|-1] == T.Keys(before);
      }
    }
  }

  // ---- The driver ---------------------------------------------------------

  class Driver {
    const layout: Layout
    const buffer: array<Event>
    var head: nat
    var tail: nat
    var count: nat
    var modifiers: Modifiers
    var leds: bv8
    ghost var log: seq<Event>
    ghost var handled: seq<Event>      // events passed to the user handler
    var hasHandler: bool

    ghost predicate Valid()
      reads this, buffer
    {
      && LayoutOk(layout) && buffer.Length == SIZE && R.RingOk(SIZE, head, tail, count)
    }

    ghost function Value(): Board
      requires Valid()
      reads this, buffer
    {
      Board(modifiers, leds, R.Contents(buffer[..], head, count), log)
    }

    constructor (l: Layout)
      requires LayoutOk(l)
      ensures Valid() && fresh(buffer) && Value() == START && layout == l && handled == [] && !hasHandler
    {
      layout := l;
      buffer := new Event[SIZE](_ => Event(0, NUL, false, NONE));
      head, tail, count := 0, 0, 0;
      modifiers, leds := NONE, 0;
      log, handled, hasHandler := [], [], false;
    }

    method UpdateModifiers(code: nat, pressed: bool)
      modifies `modifiers, `leds
      ensures modifiers == Update(old(modifiers), code, pressed)
      ensures leds == UpdateLeds(old(leds), code, pressed)
    {
      if code == 0x2A {
        modifiers := modifiers.(leftShift := pressed);
      } else if code == 0x36 {
        modifiers := modifiers.(rightShift := pressed);
      } else if code == 0x1D {
        modifiers := modifiers.(leftCtrl := pressed);
      } else if code == 0x38 {
        modifiers := modifiers.(leftAlt := pressed);
      } else if code == CAPS {
        if pressed {
          modifiers := modifiers.(caps := !modifiers.caps);
          leds := leds ^ 4;
        }
      } else if code == NUM {
        if pressed {
          modifiers := modifiers.(num := !modifiers.num);
          leds := leds ^ 2;
        }
      } else if code == SCROLL {
        if pressed {
          modifiers := modifiers.(scroll := !modifiers.scroll);
          leds := leds ^ 1;
        }
      }
    }

    method PushEvent(e: Event)
      requires Valid()
      modifies `head, `tail, `count, buffer
      ensures Valid() && Value() == old(Value()).(queue := Push(old(Value()).queue, e))
    {
      if count >= SIZE {
        R.TakeFront(buffer[..], head, tail, count);
        head := (head + 1) % SIZE;
        count := count - 1;
      }
      ghost var b := buffer[..];
      R.PutBack(b, head, tail, count, e);
      buffer[tail] := e;
      assert buffer[..] == b[tail := e];
      tail := (tail + 1) % SIZE;
      count := count + 1;
    }

    method ReadNext() returns (e: Event, status: int)
      requires Valid()
      modifies `head, `count
      ensures Valid() && Value() == Step(layout, old(Value()), ReadEvent)
      ensures status == if old(Value()).queue == [] then -1 else 0
      ensures old(Value()).queue != [] ==> e == old(Value()).queue[0]
    {
      if count == 0 {
        return Event(0, NUL, false, NONE), -1;
      }
      R.TakeFront(buffer[..], head, tail, count);
      e := buffer[head];
      head := (head + 1) % SIZE;
      count := count - 1;
      status := 0;
    }

    method Flush()
      requires Valid()
      modifies `head, `tail, `count
      ensures Valid() && Value() == Step(layout, old(Value()), FlushEvents)
    {
      head, tail, count := 0, 0, 0;
    }

    /** process_scancode. The handler sees each event once, before it is queued. */
    method ProcessScancode(byte: Byte)
      requires Valid()
      modifies this, buffer
      ensures Valid() && Value() == Step(layout, old(Value()), Scan(byte))
      ensures hasHandler == old(hasHandler)
      ensures handled == if hasHandler then old(handled) + [EventOf(layout, old(modifiers), byte)] else old(handled)
    {
      var code, pressed := byte, true;
      if byte >= 128 {
        pressed := false;
        code := byte - 128;
      }
      var before := modifiers;
      UpdateModifiers(code, pressed);
      var event := Event(code, Ascii(layout, code, modifiers), pressed, before);
      if hasHandler {
        handled := handled + [event];
      }
      log := log + [event];
      PushEvent(event);
    }
  }
}
