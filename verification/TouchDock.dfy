// The dock's touch loop: multitouch slots in, key and button writes out.

module TouchDock {
  import opened Wrappers

  datatype Modifier = Ctrl | Alt | Super | Shift | Caps

  /** A key of the layout: the five modifier keys appear only by name, never by their codes. */
  datatype Code = Plain(key: nat) | Mod(modifier: Modifier)

  datatype Target = Key(code: Code) | Mouse(button: nat) | Top

  datatype Hitbox = Hitbox(x1: int, y1: int, x2: int, y2: int, target: Target)

  /** One line of a virtual device, and one value written to it. */
  datatype Line = KeyLine(key: nat) | ButtonLine(button: nat) | ModLine(modifier: Modifier)
  datatype Write = Write(line: Line, down: bool)

  datatype Mods = Mods(ctrl: bool, alt: bool, super: bool, shift: bool, caps: bool)

  const BTN_LEFT := 0x110
  const MAX_FINGERS := 4

  // ----- What a log of writes leaves on the devices -------------------------

  function Sign(w: Write, line: Line): int {
    if w.line != line then 0 else if w.down then 1 else -1
  }

  /** Downs minus ups. */
  function Balance(log: seq<Write>, line: Line): int {
    if log == [] then 0 else Balance(log[..|log| - 1], line) + Sign(log[|log| - 1], line)
  }

  /** The last value written; every line starts up. */
  function Value(log: seq<Write>, line: Line): bool {
    if log == [] then false
    else if log[|log| - 1].line == line then log[|log| - 1].down
    else Value(log[..|log| - 1], line)
  }

  /** How often the line was pressed. */
  function Downs(log: seq<Write>, line: Line): nat {
    if log == [] then 0 else Downs(log[..|log| - 1], line) + if log[|log| - 1] == Write(line, true) then 1 else 0
  }

  predicate Odd(n: nat) {
    n % 2 == 1
  }

  /** The line a held target keeps down; a modifier toggles instead, and a top button is no key. */
  function LineOf(t: Target): Option<Line> {
    match t
    case Key(Plain(k)) => Some(KeyLine(k))
    case Mouse(b) => Some(ButtonLine(b))
    case _ => None
  }

  /** What a slot holds. */
  function Entry(held: map<int, Target>, s: int): Option<Target> {
    if s in held then Some(held[s]) else None
  }

  ghost function Holders(held: map<int, Target>, line: Line): set<int> {
    set s | s in held && LineOf(held[s]) == Some(line)
  }

  /** A key or button has been pressed once more than released per finger on it, and with none on it it is up. */
  ghost predicate Settled(log: seq<Write>, held: map<int, Target>, line: Line) {
    Balance(log, line) == |Holders(held, line)| && (Holders(held, line) == {} ==> !Value(log, line))
  }

  ghost predicate Balanced(log: seq<Write>, held: map<int, Target>) {
    forall line: Line :: !line.ModLine? ==> Settled(log, held, line)
  }

  /** From log `a` to `b`, all told: `line` moves by `amount` and is left down or up as that says, another stays. */
  ghost predicate MovedBy(a: seq<Write>, b: seq<Write>, l: Line, line: Option<Line>, amount: int) {
    if line == Some(l) && amount != 0 then
      && Balance(b, l) == Balance(a, l) + amount && Value(b, l) == (amount > 0)
      && Downs(b, l) == Downs(a, l) + if amount > 0 then amount else 0
    else Balance(b, l) == Balance(a, l) && Value(b, l) == Value(a, l) && Downs(b, l) == Downs(a, l)
  }

  /** From log `a` to `b`: only additions, and of all keys and buttons only `line` moves, by `amount`. */
  ghost predicate Moves(a: seq<Write>, b: seq<Write>, line: Option<Line>, amount: int) {
    a <= b && forall l: Line :: !l.ModLine? ==> MovedBy(a, b, l, line, amount)
  }

  /** The same with a click of `line`, which leaves it up. */
  ghost predicate Clicks(a: seq<Write>, b: seq<Write>, line: Line) {
    a <= b && forall l: Line :: !l.ModLine? ==> ClickedBy(a, b, l, line)
  }

  ghost predicate ClickedBy(a: seq<Write>, b: seq<Write>, l: Line, line: Line) {
    && Balance(b, l) == Balance(a, l) && Value(b, l) == (Value(a, l) && l != line)
    && Downs(b, l) == Downs(a, l) + if l == line then 1 else 0
  }

  /** One modifier's flag is what the device was last told; Caps is only clicked, and its flag counts clicks. */
  ghost predicate ModShown(log: seq<Write>, mods: Mods, m: Modifier) {
    if m == Caps then
      !Value(log, ModLine(Caps)) && Balance(log, ModLine(Caps)) == 0 && mods.caps == Odd(Downs(log, ModLine(Caps)))
    else Value(log, ModLine(m)) == Flag(mods, m)
  }

  ghost predicate ModsShown(log: seq<Write>, mods: Mods) {
    forall m: Modifier :: ModShown(log, mods, m)
  }

  lemma {:induction false} LastWrite(log: seq<Write>, w: Write, l: Line)
    ensures Balance(log + [w], l) == Balance(log, l) + Sign(w, l)
    ensures Value(log + [w], l) == if l == w.line then w.down else Value(log, l)
    ensures Downs(log + [w], l) == Downs(log, l) + if w == Write(l, true) then 1 else 0
  {
    assert (log + [w])[..|log|] == log;
  }

  lemma MovesWrite(log: seq<Write>, w: Write)
    ensures Moves(log, log + [w], if w.line.ModLine? then None else Some(w.line), if w.down then 1 else -1)
  {
    var line, amount := if w.line.ModLine? then None else Some(w.line), if w.down then 1 else -1;
    forall l: Line | !l.ModLine? ensures MovedBy(log, log + [w], l, line, amount) {
      LastWrite(log, w, l);
    }
  }

  /** Two stretches of writes, one of which moves nothing. */
  lemma MovesOn(a: seq<Write>, b: seq<Write>, c: seq<Write>, line: Option<Line>, m: int, n: int)
    requires m == 0 || n == 0 || line == None
    requires Moves(a, b, if m == 0 then None else line, m) && Moves(b, c, if n == 0 then None else line, n)
    ensures Moves(a, c, line, m + n)
  {
    forall l: Line | !l.ModLine? ensures MovedBy(a, c, l, line, m + n) {
      assert MovedBy(a, b, l, if m == 0 then None else line, m);
      assert MovedBy(b, c, l, if n == 0 then None else line, n);
    }
  }

  lemma DownAndUp(a: seq<Write>, b: seq<Write>, c: seq<Write>, line: Line)
    requires Moves(a, b, Some(line), 1) && Moves(b, c, Some(line), -1)
    ensures Clicks(a, c, line)
  {
    forall l: Line | !l.ModLine? ensures ClickedBy(a, c, l, line) {
      assert MovedBy(a, b, l, Some(line), 1);
      assert MovedBy(b, c, l, Some(line), -1);
    }
  }

  function WithFlag(f: Mods, m: Modifier, on: bool): Mods {
    match m
    case Ctrl => f.(ctrl := on)
    case Alt => f.(alt := on)
    case Super => f.(super := on)
    case Shift => f.(shift := on)
    case Caps => f.(caps := on)
  }

  function Flag(f: Mods, m: Modifier): bool {
    match m
    case Ctrl => f.ctrl
    case Alt => f.alt
    case Super => f.super
    case Shift => f.shift
    case Caps => f.caps
  }

  /** A key or button leaves the modifiers alone. */
  lemma OtherWrite(log: seq<Write>, mods: Mods, w: Write)
    requires ModsShown(log, mods) && !w.line.ModLine?
    ensures ModsShown(log + [w], mods)
  {
    forall m: Modifier ensures ModShown(log + [w], mods, m) {
      assert ModShown(log, mods, m);
      LastWrite(log, w, ModLine(m));
    }
  }

  /** A modifier's flag and its line go together. */
  lemma FlagWrite(log: seq<Write>, mods: Mods, m: Modifier, on: bool)
    requires ModsShown(log, mods) && m != Caps
    ensures ModsShown(log + [Write(ModLine(m), on)], WithFlag(mods, m, on))
    ensures Moves(log, log + [Write(ModLine(m), on)], None, 0)
  {
    var w := Write(ModLine(m), on);
    forall n: Modifier ensures ModShown(log + [w], WithFlag(mods, m, on), n) {
      assert ModShown(log, mods, n);
      LastWrite(log, w, ModLine(n));
    }
    MovesWrite(log, w);
  }

  /** A click of Caps toggles its flag and leaves the line up. */
  lemma CapsClick(log: seq<Write>, mods: Mods)
    requires ModsShown(log, mods)
    ensures var after := log + [Write(ModLine(Caps), true)] + [Write(ModLine(Caps), false)];
            ModsShown(after, WithFlag(mods, Caps, !mods.caps)) && Moves(log, after, None, 0)
  {
    var down, up := Write(ModLine(Caps), true), Write(ModLine(Caps), false);
    var toggled := WithFlag(mods, Caps, !mods.caps);
    forall m: Modifier ensures ModShown(log + [down] + [up], toggled, m) {
      assert ModShown(log, mods, m);
      LastWrite(log, down, ModLine(m));
      LastWrite(log + [down], up, ModLine(m));
    }
    MovesWrite(log, down);
    MovesWrite(log + [down], up);
    MovesOn(log, log + [down], log + [down] + [up], None, 1, -1);
  }

  lemma HoldersInsert(held: map<int, Target>, s: int, t: Target, line: Line)
    requires s !in held
    ensures |Holders(held[s := t], line)| == |Holders(held, line)| + (if LineOf(t) == Some(line) then 1 else 0)
  {
    if LineOf(t) == Some(line) {
      assert Holders(held[s := t], line) == Holders(held, line) + {s};
    } else {
      assert Holders(held[s := t], line) == Holders(held, line);
    }
  }

  lemma HoldersRemove(held: map<int, Target>, s: int, line: Line)
    requires s in held
    ensures |Holders(held, line)| == |Holders(held - {s}, line)| + (if LineOf(held[s]) == Some(line) then 1 else 0)
  {
    HoldersInsert(held - {s}, s, held[s], line);
    assert held == (held - {s})[s := held[s]];
  }

  /** No finger, no key: with nothing held every key and button is up again. */
  lemma NothingHeldAllUp(log: seq<Write>, held: map<int, Target>, line: Line)
    requires Balanced(log, held) && (forall s :: Entry(held, s) == None) && !line.ModLine?
    ensures Balance(log, line) == 0 && !Value(log, line)
  {
    forall s ensures s !in Holders(held, line) {
      assert Entry(held, s) == None;
    }
    assert Holders(held, line) == {};
    assert Settled(log, held, line);
  }

  lemma StartsSettled()
    ensures Balanced([], map[])
  {
    forall line: Line | !line.ModLine? ensures Settled([], map[], line) {
      assert Holders(map[], line) == {};
    }
  }

  /** A finger takes a target and its line goes down. */
  lemma HoldSettles(a: seq<Write>, b: seq<Write>, held: map<int, Target>, s: int, t: Target)
    requires s !in held && Balanced(a, held) && Moves(a, b, LineOf(t), 1)
    ensures Balanced(b, held[s := t])
  {
    forall line: Line | !line.ModLine? ensures Settled(b, held[s := t], line) {
      HoldersInsert(held, s, t, line);
      assert Settled(a, held, line) && MovedBy(a, b, line, LineOf(t), 1);
      assert |Holders(held[s := t], line)| == 0 ==> Holders(held[s := t], line) == {};
    }
  }

  /** A finger leaves its target and its line goes up. */
  lemma ReleaseSettles(a: seq<Write>, b: seq<Write>, held: map<int, Target>, s: int)
    requires s in held && Balanced(a, held) && Moves(a, b, LineOf(held[s]), -1)
    ensures Balanced(b, held - {s})
  {
    forall line: Line | !line.ModLine? ensures Settled(b, held - {s}, line) {
      HoldersRemove(held, s, line);
      assert Settled(a, held, line) && MovedBy(a, b, line, LineOf(held[s]), -1);
      assert |Holders(held, line)| == 0 ==> Holders(held, line) == {};
    }
  }

  lemma ClickSettles(a: seq<Write>, b: seq<Write>, held: map<int, Target>, click: Line)
    requires Balanced(a, held) && Clicks(a, b, click)
    ensures Balanced(b, held)
  {
    forall line: Line | !line.ModLine? ensures Settled(b, held, line) {
      assert Settled(a, held, line) && ClickedBy(a, b, line, click);
    }
  }

  // ----- What the device shows of the fingers -------------------------------

  /** The line is down exactly while some slot holds it. */
  ghost predicate InStep(log: seq<Write>, held: map<int, Target>, line: Line) {
    Value(log, line) <==> Holders(held, line) != {}
  }

  ghost predicate Holds(held: map<int, Target>, s: int, line: Line) {
    Entry(held, s).Some? && LineOf(Entry(held, s).value) == Some(line)
  }

  /** Some slot on the line holds nothing any more; some slot that held nothing is on it. */
  ghost predicate Lost(before: map<int, Target>, after: map<int, Target>, line: Line) {
    exists s :: Holds(before, s, line) && Entry(after, s) == None
  }

  ghost predicate Gained(before: map<int, Target>, after: map<int, Target>, line: Line) {
    exists s :: Holds(after, s, line) && Entry(before, s) == None
  }

  /** What a finger on this line holds. */
  function TargetOf(l: Line): Target {
    match l
    case KeyLine(k) => Key(Plain(k))
    case ButtonLine(b) => Mouse(b)
    case ModLine(m) => Key(Mod(m))
  }

  /** The slots that hold `t` and held nothing before. */
  ghost function Newcomers(before: map<int, Target>, after: map<int, Target>, t: Target): set<int> {
    set s | s in after && after[s] == t && Entry(before, s) == None
  }

  /** `part` holds nothing that `whole` does not. */
  ghost predicate Within(part: map<int, Target>, whole: map<int, Target>) {
    forall s :: Entry(part, s) == None || Entry(part, s) == Entry(whole, s)
  }

  const LEFT := ButtonLine(BTN_LEFT)

  /** Fingers leave: their lines go up, and a tap may take the left button up too. */
  ghost predicate LineLifts(a: seq<Write>, b: seq<Write>, before: map<int, Target>, after: map<int, Target>, l: Line) {
    && (Value(b, l) ==> Value(a, l) && !Lost(before, after, l))
    && (l != LEFT ==> Value(b, l) == (Value(a, l) && !Lost(before, after, l)) && Downs(b, l) == Downs(a, l))
  }

  ghost predicate Lifts(a: seq<Write>, b: seq<Write>, before: map<int, Target>, after: map<int, Target>) {
    Within(after, before) && forall l: Line :: !l.ModLine? ==> LineLifts(a, b, before, after, l)
  }

  /** Fingers land: their lines go down, once for each. */
  ghost predicate LineLands(a: seq<Write>, b: seq<Write>, before: map<int, Target>, after: map<int, Target>, l: Line) {
    && Value(b, l) == (Value(a, l) || Gained(before, after, l))
    && Downs(b, l) == Downs(a, l) + |Newcomers(before, after, TargetOf(l))|
  }

  ghost predicate Lands(a: seq<Write>, b: seq<Write>, before: map<int, Target>, after: map<int, Target>) {
    Within(before, after) && forall l: Line :: !l.ModLine? ==> LineLands(a, b, before, after, l)
  }

  lemma NothingLifts(log: seq<Write>, held: map<int, Target>)
    ensures Lifts(log, log, held, held) && Lands(log, log, held, held)
  {
    forall l: Line | !l.ModLine? ensures LineLifts(log, log, held, held, l) && LineLands(log, log, held, held, l) {
      NoNewcomers(held, held, TargetOf(l));
    }
  }

  /** Who only loses targets gains none. */
  lemma NoNewcomers(before: map<int, Target>, after: map<int, Target>, t: Target)
    requires Within(after, before)
    ensures Newcomers(before, after, t) == {}
  {
    forall s ensures s !in Newcomers(before, after, t) {
      assert Entry(after, s) == None || Entry(after, s) == Entry(before, s);
    }
  }

  lemma OneNewcomer(held: map<int, Target>, s: int, t: Target, u: Target)
    requires s !in held
    ensures Newcomers(held, held[s := t], u) == if t == u then {s} else {}
  {
  }

  lemma NewcomersOn(x: map<int, Target>, y: map<int, Target>, z: map<int, Target>, t: Target)
    requires Within(x, y) && Within(y, z)
    ensures |Newcomers(x, z, t)| == |Newcomers(x, y, t)| + |Newcomers(y, z, t)|
  {
    var first, second := Newcomers(x, y, t), Newcomers(y, z, t);
    forall s ensures s in Newcomers(x, z, t) <==> s in first || s in second {
      assert Entry(x, s) == None || Entry(x, s) == Entry(y, s);
      assert Entry(y, s) == None || Entry(y, s) == Entry(z, s);
    }
    assert Newcomers(x, z, t) == first + second;
    assert first !! second by {
      forall s ensures !(s in first && s in second) {
        assert s in first ==> Entry(y, s) != None;
      }
    }
  }

  /** Fingers that left first make no difference to who is new. */
  lemma NewAfterLift(x: map<int, Target>, y: map<int, Target>, z: map<int, Target>, t: Target)
    requires Within(y, x)
    requires forall s :: Entry(x, s) != None && Entry(y, s) == None ==> Entry(z, s) == None
    ensures Newcomers(x, z, t) == Newcomers(y, z, t)
  {
    forall s ensures s in Newcomers(x, z, t) <==> s in Newcomers(y, z, t) {
      assert Entry(y, s) == None || Entry(y, s) == Entry(x, s);
    }
  }

  lemma LiftsOn(a: seq<Write>, b: seq<Write>, c: seq<Write>,
                x: map<int, Target>, y: map<int, Target>, z: map<int, Target>)
    requires Lifts(a, b, x, y) && Lifts(b, c, y, z)
    ensures Lifts(a, c, x, z)
  {
    forall s ensures Entry(z, s) == None || Entry(z, s) == Entry(x, s) {
      assert Entry(y, s) == None || Entry(y, s) == Entry(x, s);
      assert Entry(z, s) == None || Entry(z, s) == Entry(y, s);
    }
    forall l: Line | !l.ModLine? ensures LineLifts(a, c, x, z, l) {
      assert LineLifts(a, b, x, y, l) && LineLifts(b, c, y, z, l);
      LostOn(x, y, z, l);
    }
  }

  lemma LostOn(x: map<int, Target>, y: map<int, Target>, z: map<int, Target>, l: Line)
    requires Within(y, x) && Within(z, y)
    ensures Lost(x, z, l) <==> Lost(x, y, l) || Lost(y, z, l)
  {
    if Lost(x, z, l) {
      var s :| Holds(x, s, l) && Entry(z, s) == None;
      assert Entry(y, s) == None || Holds(y, s, l);
    }
    if Lost(x, y, l) {
      var s :| Holds(x, s, l) && Entry(y, s) == None;
      assert Entry(z, s) == None;
    }
    if Lost(y, z, l) {
      var s :| Holds(y, s, l) && Entry(z, s) == None;
      assert Holds(x, s, l);
    }
  }

  lemma LandsOn(a: seq<Write>, b: seq<Write>, c: seq<Write>,
                x: map<int, Target>, y: map<int, Target>, z: map<int, Target>)
    requires Lands(a, b, x, y) && Lands(b, c, y, z)
    ensures Lands(a, c, x, z)
  {
    forall s ensures Entry(x, s) == None || Entry(x, s) == Entry(z, s) {
      assert Entry(x, s) == None || Entry(x, s) == Entry(y, s);
      assert Entry(y, s) == None || Entry(y, s) == Entry(z, s);
    }
    forall l: Line | !l.ModLine? ensures LineLands(a, c, x, z, l) {
      assert LineLands(a, b, x, y, l) && LineLands(b, c, y, z, l);
      GainedOn(x, y, z, l);
      NewcomersOn(x, y, z, TargetOf(l));
    }
  }

  lemma GainedOn(x: map<int, Target>, y: map<int, Target>, z: map<int, Target>, l: Line)
    requires Within(x, y) && Within(y, z)
    ensures Gained(x, z, l) <==> Gained(x, y, l) || Gained(y, z, l)
  {
    if Gained(x, z, l) {
      var s :| Holds(z, s, l) && Entry(x, s) == None;
      assert Entry(y, s) == None || Holds(y, s, l);
    }
    if Gained(x, y, l) {
      var s :| Holds(y, s, l) && Entry(x, s) == None;
      assert Holds(z, s, l);
    }
    if Gained(y, z, l) {
      var s :| Holds(z, s, l) && Entry(y, s) == None;
      assert Entry(x, s) == None;
    }
  }

  lemma ReleaseLifts(a: seq<Write>, b: seq<Write>, held: map<int, Target>, s: int)
    requires s in held && Moves(a, b, LineOf(held[s]), -1)
    ensures Lifts(a, b, held, held - {s})
  {
    forall l: Line | !l.ModLine? ensures LineLifts(a, b, held, held - {s}, l) {
      assert MovedBy(a, b, l, LineOf(held[s]), -1);
      if LineOf(held[s]) == Some(l) {
        assert Holds(held, s, l) && Entry(held - {s}, s) == None;
      }
    }
  }

  lemma ClickLifts(a: seq<Write>, b: seq<Write>, held: map<int, Target>)
    requires Clicks(a, b, LEFT)
    ensures Lifts(a, b, held, held)
  {
    forall l: Line | !l.ModLine? ensures LineLifts(a, b, held, held, l) {
      assert ClickedBy(a, b, l, LEFT);
    }
  }

  lemma HoldLands(a: seq<Write>, b: seq<Write>, held: map<int, Target>, s: int, t: Target)
    requires s !in held && Moves(a, b, LineOf(t), 1)
    ensures Lands(a, b, held, held[s := t])
  {
    forall l: Line | !l.ModLine? ensures LineLands(a, b, held, held[s := t], l) {
      assert MovedBy(a, b, l, LineOf(t), 1);
      OneNewcomer(held, s, t, TargetOf(l));
      if LineOf(t) == Some(l) {
        assert Holds(held[s := t], s, l) && Entry(held, s) == None;
      }
    }
  }

  /**
    One report: a line that gains a finger is down, one that only loses a finger
    is up, any other stays; it is pressed once for every finger it gains.
   */
  ghost predicate LineFollows(a: seq<Write>, b: seq<Write>, before: map<int, Target>, after: map<int, Target>, l: Line) {
    && (Gained(before, after, l) ==> Value(b, l))
    && (Value(b, l) ==> Gained(before, after, l) || (Value(a, l) && !Lost(before, after, l)))
    && (l != LEFT && Value(a, l) && !Lost(before, after, l) ==> Value(b, l))
    && (l != LEFT ==> Downs(b, l) == Downs(a, l) + |Newcomers(before, after, TargetOf(l))|)
  }

  /** A finger that held something holds the same or nothing. */
  ghost predicate Keeps(before: map<int, Target>, after: map<int, Target>) {
    forall s :: Entry(before, s) == None || Entry(after, s) == None || Entry(after, s) == Entry(before, s)
  }

  ghost predicate Follows(a: seq<Write>, b: seq<Write>, before: map<int, Target>, after: map<int, Target>) {
    Keeps(before, after) && forall l: Line :: !l.ModLine? ==> LineFollows(a, b, before, after, l)
  }

  lemma ReportFollows(a: seq<Write>, b: seq<Write>, c: seq<Write>,
                      x: map<int, Target>, y: map<int, Target>, z: map<int, Target>)
    requires Lifts(a, b, x, y) && Lands(b, c, y, z)
    requires forall s :: Entry(x, s) != None && Entry(y, s) == None ==> Entry(z, s) == None
    ensures Follows(a, c, x, z)
  {
    forall s ensures Entry(x, s) == None || Entry(z, s) == None || Entry(z, s) == Entry(x, s) {
      assert Entry(y, s) == None || Entry(y, s) == Entry(x, s);
      assert Entry(y, s) == None || Entry(y, s) == Entry(z, s);
    }
    forall l: Line | !l.ModLine? ensures LineFollows(a, c, x, z, l) {
      assert LineLifts(a, b, x, y, l) && LineLands(b, c, y, z, l);
      LiftThenLand(x, y, z, l);
      NewAfterLift(x, y, z, TargetOf(l));
    }
  }

  /** After the lifts the left button is pressed once for every finger that lands on it. */
  lemma LeftLands(b: seq<Write>, c: seq<Write>, x: map<int, Target>, y: map<int, Target>, z: map<int, Target>)
    requires Lands(b, c, y, z) && Within(y, x)
    requires forall s :: Entry(x, s) != None && Entry(y, s) == None ==> Entry(z, s) == None
    ensures Downs(c, LEFT) == Downs(b, LEFT) + |Newcomers(x, z, Mouse(BTN_LEFT))|
  {
    NewAfterLift(x, y, z, Mouse(BTN_LEFT));
    assert LineLands(b, c, y, z, LEFT);
  }

  lemma LiftThenLand(x: map<int, Target>, y: map<int, Target>, z: map<int, Target>, l: Line)
    requires Within(y, x) && Within(y, z)
    requires forall s :: Entry(x, s) != None && Entry(y, s) == None ==> Entry(z, s) == None
    ensures Lost(x, z, l) <==> Lost(x, y, l)
    ensures Gained(x, z, l) <==> Gained(y, z, l)
  {
    if Lost(x, z, l) {
      var s :| Holds(x, s, l) && Entry(z, s) == None;
      assert Entry(y, s) == None || Entry(y, s) == Entry(z, s);
    }
    if Lost(x, y, l) {
      var s :| Holds(x, s, l) && Entry(y, s) == None;
      assert Entry(z, s) == None;
    }
    if Gained(x, z, l) {
      var s :| Holds(z, s, l) && Entry(x, s) == None;
      assert Entry(y, s) == None || Entry(y, s) == Entry(x, s);
    }
    if Gained(y, z, l) {
      var s :| Holds(z, s, l) && Entry(y, s) == None;
      assert Entry(x, s) == None;
    }
  }

  /** What a finger let go by leaving is held no more. */
  lemma GoneStayGone(down: set<int>, x: map<int, Target>, y: map<int, Target>, z: map<int, Target>)
    requires forall s :: Entry(y, s) == if s in down then Entry(x, s) else None
    requires forall s :: s !in down ==> Entry(z, s) == None
    ensures forall s :: Entry(x, s) != None && Entry(y, s) == None ==> Entry(z, s) == None
  {
  }

  /** Maps that hold the same do the same. */
  lemma SameNewcomers(x: map<int, Target>, y: map<int, Target>, p: map<int, Target>, q: map<int, Target>, t: Target)
    requires (forall s :: Entry(x, s) == Entry(p, s)) && (forall s :: Entry(y, s) == Entry(q, s))
    ensures Newcomers(x, y, t) == Newcomers(p, q, t)
  {
    forall s ensures s in Newcomers(x, y, t) <==> s in Newcomers(p, q, t) {
      assert Entry(x, s) == Entry(p, s) && Entry(y, s) == Entry(q, s);
    }
  }

  lemma SameHolding(x: map<int, Target>, y: map<int, Target>, p: map<int, Target>, q: map<int, Target>, l: Line)
    requires (forall s :: Entry(x, s) == Entry(p, s)) && (forall s :: Entry(y, s) == Entry(q, s))
    ensures Lost(x, y, l) ==> Lost(p, q, l)
    ensures Gained(x, y, l) ==> Gained(p, q, l)
  {
    if Lost(x, y, l) {
      var s :| Holds(x, s, l) && Entry(y, s) == None;
      assert Holds(p, s, l) && Entry(q, s) == None;
    }
    if Gained(x, y, l) {
      var s :| Holds(y, s, l) && Entry(x, s) == None;
      assert Holds(q, s, l) && Entry(p, s) == None;
    }
  }

  // ----- What the fingers make of the modifiers -----------------------------

  /** Some finger let go of a plain key. */
  ghost predicate KeyLost(before: map<int, Target>, after: map<int, Target>) {
    exists k: nat :: Lost(before, after, KeyLine(k))
  }

  /** One flag after some fingers left: a key takes the sticky modifiers with it. */
  ghost predicate FlagLifts(before: map<int, Target>, after: map<int, Target>, m: Modifier, on: bool) {
    on && !(KeyLost(before, after) && m != Caps)
  }

  /** One flag after some fingers landed: each that lands on it toggles it. */
  ghost predicate FlagLands(before: map<int, Target>, after: map<int, Target>, m: Modifier, on: bool) {
    on != Odd(|Newcomers(before, after, Key(Mod(m)))|)
  }

  /** One flag after a report. */
  ghost predicate FlagNext(before: map<int, Target>, after: map<int, Target>, m: Modifier, on: bool) {
    FlagLands(before, after, m, FlagLifts(before, after, m, on))
  }

  ghost predicate ModsLift(f: Mods, g: Mods, before: map<int, Target>, after: map<int, Target>) {
    Within(after, before) && forall m: Modifier :: Flag(g, m) == FlagLifts(before, after, m, Flag(f, m))
  }

  ghost predicate ModsLand(f: Mods, g: Mods, before: map<int, Target>, after: map<int, Target>) {
    Within(before, after) && forall m: Modifier :: Flag(g, m) == FlagLands(before, after, m, Flag(f, m))
  }

  ghost predicate ModsFollow(f: Mods, g: Mods, before: map<int, Target>, after: map<int, Target>) {
    forall m: Modifier :: Flag(g, m) == FlagNext(before, after, m, Flag(f, m))
  }

  lemma NoKeyLost(before: map<int, Target>, after: map<int, Target>)
    requires Within(before, after)
    ensures !KeyLost(before, after)
  {
    forall k: nat ensures !Lost(before, after, KeyLine(k)) {
      forall s ensures !(Holds(before, s, KeyLine(k)) && Entry(after, s) == None) {
        assert Entry(before, s) == None || Entry(before, s) == Entry(after, s);
      }
    }
  }

  lemma ModsStay(f: Mods, held: map<int, Target>)
    ensures ModsLift(f, f, held, held) && ModsLand(f, f, held, held) && ModsFollow(f, f, held, held)
  {
    NoKeyLost(held, held);
    forall m: Modifier
      ensures FlagLifts(held, held, m, Flag(f, m)) == FlagLands(held, held, m, Flag(f, m)) == Flag(f, m)
    {
      NoNewcomers(held, held, Key(Mod(m)));
    }
  }

  lemma ReleaseMods(f: Mods, held: map<int, Target>, s: int)
    requires s in held
    ensures var plain := held[s].Key? && held[s].code.Plain?;
            ModsLift(f, if plain then Mods(false, false, false, false, f.caps) else f, held, held - {s})
  {
    if held[s].Key? && held[s].code.Plain? {
      assert Holds(held, s, KeyLine(held[s].code.key)) && Entry(held - {s}, s) == None;
      assert Lost(held, held - {s}, KeyLine(held[s].code.key));
    } else {
      forall k: nat ensures !Lost(held, held - {s}, KeyLine(k)) {
        forall t ensures !(Holds(held, t, KeyLine(k)) && Entry(held - {s}, t) == None) {
          assert t != s ==> Entry(held - {s}, t) == Entry(held, t);
        }
      }
    }
  }

  lemma HoldMods(f: Mods, held: map<int, Target>, s: int, t: Target)
    requires s !in held
    ensures var toggles := t.Key? && t.code.Mod?;
            ModsLand(f, if toggles then WithFlag(f, t.code.modifier, !Flag(f, t.code.modifier)) else f, held, held[s := t])
  {
    forall m: Modifier
      ensures FlagLands(held, held[s := t], m, Flag(f, m)) == (Flag(f, m) != (t == Key(Mod(m))))
    {
      OneNewcomer(held, s, t, Key(Mod(m)));
    }
  }

  lemma ModsLiftOn(f: Mods, g: Mods, h: Mods, x: map<int, Target>, y: map<int, Target>, z: map<int, Target>)
    requires ModsLift(f, g, x, y) && ModsLift(g, h, y, z)
    ensures ModsLift(f, h, x, z)
  {
    assert Within(z, x) by {
      forall s ensures Entry(z, s) == None || Entry(z, s) == Entry(x, s) {
        assert Entry(y, s) == None || Entry(y, s) == Entry(x, s);
        assert Entry(z, s) == None || Entry(z, s) == Entry(y, s);
      }
    }
    assert KeyLost(x, z) <==> KeyLost(x, y) || KeyLost(y, z) by {
      forall k: nat ensures Lost(x, z, KeyLine(k)) <==> Lost(x, y, KeyLine(k)) || Lost(y, z, KeyLine(k)) {
        LostOn(x, y, z, KeyLine(k));
      }
    }
  }

  lemma ModsLandOn(f: Mods, g: Mods, h: Mods, x: map<int, Target>, y: map<int, Target>, z: map<int, Target>)
    requires ModsLand(f, g, x, y) && ModsLand(g, h, y, z)
    ensures ModsLand(f, h, x, z)
  {
    assert Within(x, z) by {
      forall s ensures Entry(x, s) == None || Entry(x, s) == Entry(z, s) {
        assert Entry(x, s) == None || Entry(x, s) == Entry(y, s);
        assert Entry(y, s) == None || Entry(y, s) == Entry(z, s);
      }
    }
    forall m: Modifier ensures Flag(h, m) == FlagLands(x, z, m, Flag(f, m)) {
      NewcomersOn(x, y, z, Key(Mod(m)));
      assert Flag(h, m) == FlagLands(y, z, m, Flag(g, m)) && Flag(g, m) == FlagLands(x, y, m, Flag(f, m));
    }
  }

  lemma ModsReport(f: Mods, g: Mods, h: Mods, x: map<int, Target>, y: map<int, Target>, z: map<int, Target>)
    requires ModsLift(f, g, x, y) && ModsLand(g, h, y, z)
    requires forall s :: Entry(x, s) != None && Entry(y, s) == None ==> Entry(z, s) == None
    ensures ModsFollow(f, h, x, z)
  {
    assert KeyLost(x, z) <==> KeyLost(x, y) by {
      forall k: nat ensures Lost(x, z, KeyLine(k)) <==> Lost(x, y, KeyLine(k)) {
        LiftThenLand(x, y, z, KeyLine(k));
      }
    }
    forall m: Modifier ensures Flag(h, m) == FlagNext(x, z, m, Flag(f, m)) {
      NewAfterLift(x, y, z, Key(Mod(m)));
      assert Flag(h, m) == FlagLands(y, z, m, Flag(g, m)) && Flag(g, m) == FlagLifts(x, y, m, Flag(f, m));
    }
  }

  lemma SameMods(f: Mods, g: Mods, x: map<int, Target>, y: map<int, Target>, p: map<int, Target>, q: map<int, Target>)
    requires (forall s :: Entry(x, s) == Entry(p, s)) && (forall s :: Entry(y, s) == Entry(q, s))
    requires ModsFollow(f, g, x, y)
    ensures ModsFollow(f, g, p, q)
  {
    assert KeyLost(x, y) <==> KeyLost(p, q) by {
      forall k: nat ensures Lost(x, y, KeyLine(k)) <==> Lost(p, q, KeyLine(k)) {
        SameHolding(x, y, p, q, KeyLine(k));
        SameHolding(p, q, x, y, KeyLine(k));
      }
    }
    forall m: Modifier ensures FlagNext(p, q, m, Flag(f, m)) == FlagNext(x, y, m, Flag(f, m)) {
      SameNewcomers(x, y, p, q, Key(Mod(m)));
    }
  }

  /**
    A line in step before a report is out of step after it exactly when a
    finger left it, none landed on it, and another finger still holds it.
   */
  lemma InStepIff(a: seq<Write>, b: seq<Write>, before: map<int, Target>, after: map<int, Target>, l: Line)
    requires !l.ModLine? && l != LEFT && Balanced(b, after) && Follows(a, b, before, after) && InStep(a, before, l)
    ensures InStep(b, after, l) <==>
            !(Lost(before, after, l) && !Gained(before, after, l) && Holders(after, l) != {})
  {
    assert Settled(b, after, l) && LineFollows(a, b, before, after, l);
    if Gained(before, after, l) {
      var s :| Holds(after, s, l) && Entry(before, s) == None;
      assert s in Holders(after, l);
    } else if !Lost(before, after, l) {
      forall s ensures s in Holders(after, l) <==> s in Holders(before, l) {
        assert Holds(after, s, l) <==> s in Holders(after, l);
        assert Holds(before, s, l) <==> s in Holders(before, l);
        assert Entry(before, s) == None || Entry(after, s) == None || Entry(after, s) == Entry(before, s);
      }
      assert Holders(after, l) == Holders(before, l);
    }
  }

  /** A tap leaves the left button in step exactly when no other finger holds it. */
  lemma TapInStepIff(a: seq<Write>, b: seq<Write>, held: map<int, Target>)
    requires Clicks(a, b, LEFT)
    ensures InStep(b, held, LEFT) <==> Holders(held, LEFT) == {}
  {
    assert ClickedBy(a, b, LEFT, LEFT);
  }

  // ----- Hit testing --------------------------------------------------------

  predicate Inside(h: Hitbox, x: int, y: int) {
    h.x1 <= x <= h.x2 && h.y1 <= y <= h.y2
  }

  method FindHitbox(hitboxes: seq<Hitbox>, x: int, y: int) returns (r: Option<Target>)
    ensures r == Hit(hitboxes, x, y)
  {
    for i := 0 to |hitboxes|
      invariant Hit(hitboxes, x, y) == Hit(hitboxes[i..], x, y)
    {
      if Inside(hitboxes[i], x, y) {
        return Some(hitboxes[i].target);
      }
      assert hitboxes[i..][1..] == hitboxes[i + 1..];
    }
    return None;
  }

  function Hit(hitboxes: seq<Hitbox>, x: int, y: int): Option<Target> {
    if hitboxes == [] then None
    else if Inside(hitboxes[0], x, y) then Some(hitboxes[0].target)
    else Hit(hitboxes[1..], x, y)
  }

  /** Nothing is hit exactly when no box contains the point; otherwise the first that does. */
  lemma {:induction false} HitIsFirst(hitboxes: seq<Hitbox>, x: int, y: int)
    ensures Hit(hitboxes, x, y) == None <==> forall i :: 0 <= i < |hitboxes| ==> !Inside(hitboxes[i], x, y)
    ensures forall i :: 0 <= i < |hitboxes| && Inside(hitboxes[i], x, y)
                        && (forall j :: 0 <= j < i ==> !Inside(hitboxes[j], x, y))
                        ==> Hit(hitboxes, x, y) == Some(hitboxes[i].target)
  {
    if hitboxes != [] {
      HitIsFirst(hitboxes[1..], x, y);
      forall i | 0 <= i < |hitboxes| && Inside(hitboxes[i], x, y)
                 && (forall j :: 0 <= j < i ==> !Inside(hitboxes[j], x, y))
        ensures Hit(hitboxes, x, y) == Some(hitboxes[i].target)
      {
        if i > 0 {
          assert hitboxes[1..][i - 1] == hitboxes[i];
          assert forall j :: 0 <= j < i - 1 ==> hitboxes[1..][j] == hitboxes[j + 1];
        }
      }
      if Hit(hitboxes, x, y) == None {
        forall i | 0 <= i < |hitboxes| ensures !Inside(hitboxes[i], x, y) {
          if i > 0 {
            assert hitboxes[1..][i - 1] == hitboxes[i];
          }
        }
      }
    }
  }

  // ----- The loop's state ---------------------------------------------------

  datatype Event =
    | SetSlot(value: int) | SetTrackingId(value: int) | SetX(value: int) | SetY(value: int)
    | Report(now: real, hitboxes: seq<Hitbox>)

  function DownSlots(tracking: map<int, int>): set<int> {
    set s | s in tracking && tracking[s] >= 0
  }

  /** Any member of a set: the source walks its dictionaries in insertion order, here the order is open. */
  method Pick(rest: set<int>) returns (r: Option<int>)
    ensures r == None <==> rest == {}
    ensures r.Some? ==> r.value in rest
  {
    if s :| s in rest {
      r := Some(s);
    } else {
      assert forall t :: t in rest ==> t in {};
      r := None;
    }
  }

  /** Squared distance; the source compares its square root with a bound. */
  predicate Near(a: (int, int), b: (int, int), bound: int) {
    (a.0 - b.0) * (a.0 - b.0) + (a.1 - b.1) * (a.1 - b.1) < bound * bound
  }

  /** The target under a slot, once both raw coordinates are known; the panel is mounted sideways. */
  function Landing(rawX: map<int, int>, rawY: map<int, int>, hitboxes: seq<Hitbox>, s: int): Option<Target> {
    if s in rawX && s in rawY then Hit(hitboxes, rawY[s], 800 - rawX[s]) else None
  }

  /** What a slot holds next: a finger already seen keeps what it has, a new one takes what it lands on. */
  function Next(down: set<int>, held: map<int, Target>, seen: set<int>, s: int, landing: Option<Target>): Option<Target> {
    if s !in down then None else if s in seen then Entry(held, s) else landing
  }

  /** The finger in slot `s` is on the box: its raw y is the screen's x, and the screen's y is 800 less its raw x. */
  predicate FingerOn(rawX: map<int, int>, rawY: map<int, int>, s: int, h: Hitbox)
    requires s in rawX && s in rawY
  {
    h.x1 <= rawY[s] <= h.x2 && h.y1 <= 800 - rawX[s] <= h.y2
  }

  /** A finger lands on the first box it is on, and on nothing exactly when it is on none or a coordinate is missing. */
  lemma LandingIsFirst(rawX: map<int, int>, rawY: map<int, int>, hitboxes: seq<Hitbox>, s: int)
    ensures !(s in rawX && s in rawY) ==> Landing(rawX, rawY, hitboxes, s) == None
    ensures s in rawX && s in rawY ==>
              (Landing(rawX, rawY, hitboxes, s) == None <==>
               forall i :: 0 <= i < |hitboxes| ==> !FingerOn(rawX, rawY, s, hitboxes[i]))
    ensures s in rawX && s in rawY ==>
              forall i :: 0 <= i < |hitboxes| && FingerOn(rawX, rawY, s, hitboxes[i])
                          && (forall j :: 0 <= j < i ==> !FingerOn(rawX, rawY, s, hitboxes[j]))
                          ==> Landing(rawX, rawY, hitboxes, s) == Some(hitboxes[i].target)
  {
    if s in rawX && s in rawY {
      HitIsFirst(hitboxes, rawY[s], 800 - rawX[s]);
      assert forall i :: 0 <= i < |hitboxes| ==>
        (FingerOn(rawX, rawY, s, hitboxes[i]) <==> Inside(hitboxes[i], rawY[s], 800 - rawX[s]));
    }
  }

  /** One box is hit exactly when the finger's screen position lies in it, edges included. */
  lemma LandsOnBoxIff(rawX: map<int, int>, rawY: map<int, int>, h: Hitbox, s: int)
    requires s in rawX && s in rawY
    ensures Landing(rawX, rawY, [h], s) == Some(h.target) <==>
            h.x1 <= rawY[s] <= h.x2 && h.y1 <= 800 - rawX[s] <= h.y2
  {
    HitIsFirst([h], rawY[s], 800 - rawX[s]);
  }

  /** A slot is down from tracking id 0 on; -1 lifts it. */
  lemma DownIff(tracking: map<int, int>, s: int)
    ensures s in DownSlots(tracking) <==> s in tracking && tracking[s] > -1
  {
  }

  /** Near is a circle without its edge: every move of less than `bound` in all, none of as much in one direction. */
  lemma NearIsDistance(x: int, y: int, dx: int, dy: int, bound: nat)
    ensures Near((x + dx, y + dy), (x, y), bound) <==> dx * dx + dy * dy < bound * bound
    ensures Near((x + bound, y), (x, y), bound) == Near((x, y + bound), (x, y), bound) == false
    ensures bound > 0 ==> Near((x + bound - 1, y), (x, y), bound) && Near((x, y - bound + 1), (x, y), bound)
  {
    assert bound > 0 ==> (bound - 1) * (bound - 1) == bound * bound - 2 * bound + 1;
  }

  // ----- What the events say ------------------------------------------------

  /** The loop's view of the screen: which slots are down where, and what each finger seen holds. */
  datatype Touch = Touch(slot: int, tracking: map<int, int>, rawX: map<int, int>, rawY: map<int, int>,
                         seen: set<int>, held: map<int, Target>)

  /** What slot `s` holds after a report with these boxes. */
  function HeldNext(t: Touch, hitboxes: seq<Hitbox>, s: int): Option<Target> {
    Next(DownSlots(t.tracking), t.held, t.seen, s, Landing(t.rawX, t.rawY, hitboxes, s))
  }

  /** After a report the fingers down are the ones seen; four fingers leave everything as it is. */
  function Reported(t: Touch, hitboxes: seq<Hitbox>): Touch {
    var down := DownSlots(t.tracking);
    if |down| >= MAX_FINGERS then t
    else
      t.(seen := (set s | s in down && s in t.rawX && s in t.rawY),
      held := (map s | s in down && HeldNext(t, hitboxes, s).Some? :: HeldNext(t, hitboxes, s).value))
  }

  function Recorded(t: Touch, ev: Event): Touch {
    match ev
    case SetSlot(v) => t.(slot := v)
    case SetTrackingId(v) => t.(tracking := t.tracking[t.slot := v])
    case SetX(v) => t.(rawX := t.rawX[t.slot := v])
    case SetY(v) => t.(rawY := t.rawY[t.slot := v])
    case Report(_, hitboxes) => Reported(t, hitboxes)
  }

  function RecordedAll(t: Touch, events: seq<Event>): Touch {
    if events == [] then t else Recorded(RecordedAll(t, events[..|events| - 1]), events[|events| - 1])
  }

  /** The slot the next coordinate belongs to: the last one named, `start` if none was. */
  function CurrentSlot(start: int, events: seq<Event>): int {
    if events == [] then start
    else if events[|events| - 1].SetSlot? then events[|events| - 1].value
    else CurrentSlot(start, events[..|events| - 1])
  }

  /** Event `i` is for slot `s`. */
  predicate IsFor(start: int, events: seq<Event>, i: nat, s: int)
    requires i < |events|
  {
    CurrentSlot(start, events[..i]) == s
  }

  lemma {:induction false} SlotIsCurrent(t: Touch, events: seq<Event>)
    ensures RecordedAll(t, events).slot == CurrentSlot(t.slot, events)
  {
    if events != [] {
      SlotIsCurrent(t, events[..|events| - 1]);
    }
  }

  /** Both events send the same kind of value. */
  predicate SameKind(e: Event, f: Event) {
    (e.SetX? && f.SetX?) || (e.SetY? && f.SetY?) || (e.SetTrackingId? && f.SetTrackingId?)
  }

  /** Nothing of its kind is sent for the slot after event `i`. */
  ghost predicate IsLast(start: int, events: seq<Event>, i: nat, s: int)
    requires i < |events|
  {
    forall k :: i < k < |events| && IsFor(start, events, k, s) ==> !SameKind(events[i], events[k])
  }

  /** What the event sends is known of the slot. */
  predicate Stored(t: Touch, e: Event, s: int) {
    match e
    case SetX(v) => s in t.rawX && t.rawX[s] == v
    case SetY(v) => s in t.rawY && t.rawY[s] == v
    case SetTrackingId(v) => s in t.tracking && t.tracking[s] == v
    case _ => true
  }

  lemma StaysStored(t: Touch, e: Event, f: Event, s: int)
    ensures Stored(t, e, s) && !(t.slot == s && SameKind(e, f)) ==> Stored(Recorded(t, f), e, s)
    ensures t.slot == s ==> Stored(Recorded(t, e), e, s)
  {
  }

  /** A slot's tracking id and coordinates are the last ones sent for it. */
  lemma {:induction false} LastForSlot(t: Touch, events: seq<Event>, i: nat, s: int)
    requires i < |events| && IsFor(t.slot, events, i, s) && IsLast(t.slot, events, i, s)
    ensures Stored(RecordedAll(t, events), events[i], s)
  {
    var front, n := events[..|events| - 1], |events| - 1;
    SlotIsCurrent(t, front);
    StaysStored(RecordedAll(t, front), events[i], events[n], s);
    if i < n {
      forall k: nat | k < n ensures IsFor(t.slot, front, k, s) == IsFor(t.slot, events, k, s) {
        assert front[..k] == events[..k];
      }
      LastForSlot(t, front, i, s);
      assert IsFor(t.slot, events, n, s) <==> RecordedAll(t, front).slot == s;
    }
  }

  /** Whether a line is down after an event; `lit` says whether it was before. */
  ghost predicate Lit(t: Touch, ev: Event, lit: bool, l: Line) {
    if ev.Report? then Gained(t.held, Recorded(t, ev).held, l) || (lit && !Lost(t.held, Recorded(t, ev).held, l)) else lit
  }

  ghost predicate LitAll(t: Touch, events: seq<Event>, lit: bool, l: Line) {
    if events == [] then lit
    else
      var front := events[..|events| - 1];
      Lit(RecordedAll(t, front), events[|events| - 1], LitAll(t, front, lit, l), l)
  }

  /** How many fingers an event makes land on a target, and all events together. */
  ghost function Landed(t: Touch, ev: Event, target: Target): nat {
    if ev.Report? then |Newcomers(t.held, Recorded(t, ev).held, target)| else 0
  }

  ghost function LandedAll(t: Touch, events: seq<Event>, target: Target): nat {
    if events == [] then 0
    else
      var front := events[..|events| - 1];
      LandedAll(t, front, target) + Landed(RecordedAll(t, front), events[|events| - 1], target)
  }

  /**
    Every line but the left button, which taps click too, is down exactly when
    the events say so, and has been pressed once for every finger landing on it.
   */
  ghost predicate LineShown(a: seq<Write>, b: seq<Write>, t: Touch, events: seq<Event>, l: Line) {
    Value(b, l) == LitAll(t, events, Value(a, l), l) && Downs(b, l) == Downs(a, l) + LandedAll(t, events, TargetOf(l))
  }

  ghost predicate LinesShown(a: seq<Write>, b: seq<Write>, t: Touch, events: seq<Event>) {
    forall l: Line :: !l.ModLine? && l != LEFT ==> LineShown(a, b, t, events, l)
  }

  /** Whether a modifier's flag is on after an event; `on` says whether it was before. */
  ghost predicate FlagAfter(t: Touch, ev: Event, m: Modifier, on: bool) {
    if ev.Report? then FlagNext(t.held, Recorded(t, ev).held, m, on) else on
  }

  ghost predicate FlagAll(t: Touch, events: seq<Event>, m: Modifier, on: bool) {
    if events == [] then on
    else
      var front := events[..|events| - 1];
      FlagAfter(RecordedAll(t, front), events[|events| - 1], m, FlagAll(t, front, m, on))
  }

  /** From `f` to `g` every flag did what the events say. */
  ghost predicate FlagsShown(f: Mods, g: Mods, t: Touch, events: seq<Event>) {
    forall m: Modifier :: Flag(g, m) == FlagAll(t, events, m, Flag(f, m))
  }

  ghost predicate FlagsStep(f: Mods, g: Mods, t: Touch, ev: Event) {
    if ev.Report? then ModsFollow(f, g, t.held, Recorded(t, ev).held) else g == f
  }

  lemma FlagsOn(f: Mods, g: Mods, h: Mods, t: Touch, events: seq<Event>, n: nat)
    requires n < |events| && FlagsShown(f, g, t, events[..n])
    requires FlagsStep(g, h, RecordedAll(t, events[..n]), events[n])
    ensures FlagsShown(f, h, t, events[..n + 1])
  {
    var u, ev := RecordedAll(t, events[..n]), events[n];
    assert events[..n + 1][..n] == events[..n];
    forall m: Modifier ensures Flag(h, m) == FlagAll(t, events[..n + 1], m, Flag(f, m)) {
      assert Flag(g, m) == FlagAll(t, events[..n], m, Flag(f, m));
      assert ev.Report? ==> Flag(h, m) == FlagNext(u.held, Recorded(u, ev).held, m, Flag(g, m));
    }
  }

  /** The n-th event takes no finger off a plain key and lands none on this modifier. */
  ghost predicate Spares(t: Touch, events: seq<Event>, m: Modifier, n: nat)
    requires n < |events|
  {
    var before, after := RecordedAll(t, events[..n]).held, RecordedAll(t, events[..n + 1]).held;
    !KeyLost(before, after) && Newcomers(before, after, Key(Mod(m))) == {}
  }

  /** Sticky: a modifier stays as it is as long as no finger leaves a plain key and none lands on it. */
  lemma {:induction false} ModifierSticks(t: Touch, events: seq<Event>, m: Modifier, on: bool)
    requires forall n :: 0 <= n < |events| ==> Spares(t, events, m, n)
    ensures FlagAll(t, events, m, on) == on
  {
    if events != [] {
      var front := events[..|events| - 1];
      forall n | 0 <= n < |front| ensures Spares(t, front, m, n) {
        assert Spares(t, events, m, n) && front[..n] == events[..n] && front[..n + 1] == events[..n + 1];
      }
      ModifierSticks(t, front, m, on);
      assert Spares(t, events, m, |events| - 1) && events[..|events|] == events;
    }
  }

  /** A key's release ends it: the report in which a finger leaves a plain key leaves on only what it lands on. */
  lemma KeyEndsModifiers(t: Touch, hitboxes: seq<Hitbox>, now: real, m: Modifier, on: bool)
    requires m != Caps && KeyLost(t.held, Reported(t, hitboxes).held)
    ensures FlagAfter(t, Report(now, hitboxes), m, on) ==>
              exists s :: s !in t.seen && Landing(t.rawX, t.rawY, hitboxes, s) == Some(Key(Mod(m)))
  {
    var after, target := Reported(t, hitboxes).held, Key(Mod(m));
    if forall s :: s !in t.seen ==> Landing(t.rawX, t.rawY, hitboxes, s) != Some(target) {
      forall s ensures s !in Newcomers(t.held, after, target) {
        assert s in after && Entry(t.held, s) == None ==> s !in t.seen && Some(after[s]) == HeldNext(t, hitboxes, s);
      }
      assert Newcomers(t.held, after, target) == {};
    }
  }

  /** What one event does to the lines. */
  ghost predicate Shows(a: seq<Write>, b: seq<Write>, t: Touch, ev: Event) {
    if ev.Report? then Follows(a, b, t.held, Recorded(t, ev).held) else b == a
  }

  lemma ShowsOn(a: seq<Write>, b: seq<Write>, c: seq<Write>, t: Touch, events: seq<Event>, n: nat)
    requires n < |events| && LinesShown(a, b, t, events[..n]) && Shows(b, c, RecordedAll(t, events[..n]), events[n])
    ensures LinesShown(a, c, t, events[..n + 1])
    ensures RecordedAll(t, events[..n + 1]) == Recorded(RecordedAll(t, events[..n]), events[n])
  {
    var m, ev := RecordedAll(t, events[..n]), events[n];
    assert events[..n + 1] == events[..n] + [ev];
    OneMore(t, events[..n], ev, false, LEFT);
    forall l: Line | !l.ModLine? && l != LEFT ensures LineShown(a, c, t, events[..n + 1], l) {
      assert LineShown(a, b, t, events[..n], l);
      OneMore(t, events[..n], ev, Value(a, l), l);
      if ev.Report? {
        assert LineFollows(b, c, m.held, Recorded(m, ev).held, l);
      }
    }
  }

  lemma OneMore(t: Touch, events: seq<Event>, ev: Event, lit: bool, l: Line)
    ensures RecordedAll(t, events + [ev]) == Recorded(RecordedAll(t, events), ev)
    ensures LitAll(t, events + [ev], lit, l) == Lit(RecordedAll(t, events), ev, LitAll(t, events, lit, l), l)
    ensures LandedAll(t, events + [ev], TargetOf(l)) ==
            LandedAll(t, events, TargetOf(l)) + Landed(RecordedAll(t, events), ev, TargetOf(l))
  {
    assert (events + [ev])[..|events|] == events;
  }

  const KEY_BOX := Hitbox(0, 0, 10, 10, Key(Plain(30)))

  /** Two fingers on one box, the second of which leaves. */
  lemma BothOnKey()
    ensures var t := Touch(1, map[0 := 1, 1 := 2], map[0 := 795, 1 := 795], map[0 := 5, 1 := 5], {}, map[]);
            Reported(t, [KEY_BOX]) ==
            t.(seen := {0, 1}, held := map[0 := KEY_BOX.target, 1 := KEY_BOX.target])
  {
    var t := Touch(1, map[0 := 1, 1 := 2], map[0 := 795, 1 := 795], map[0 := 5, 1 := 5], {}, map[]);
    assert DownSlots(t.tracking) == {0, 1};
    assert Hit([KEY_BOX], 5, 5) == Some(KEY_BOX.target);
  }

  lemma OneLeaves(t: Touch)
    requires t.tracking == map[0 := 1, 1 := -1] && t.seen == {0, 1}
    requires t.held == map[0 := KEY_BOX.target, 1 := KEY_BOX.target]
    ensures Reported(t, [KEY_BOX]).held == map[0 := KEY_BOX.target]
  {
    assert DownSlots(t.tracking) == {0};
  }

  lemma ThreeEvents(t: Touch, x: Event, y: Event, z: Event, lit: bool, l: Line)
    ensures var a, b := Recorded(t, x), Recorded(Recorded(t, x), y);
            && RecordedAll(t, [x, y, z]) == Recorded(b, z)
            && LitAll(t, [x, y, z], lit, l) == Lit(b, z, Lit(a, y, Lit(t, x, lit, l), l), l)
  {
    OneMore(t, [], x, lit, l);
    OneMore(t, [x], y, lit, l);
    OneMore(t, [x, y], z, lit, l);
    assert [] + [x] == [x] && [x] + [y] == [x, y] && [x, y] + [z] == [x, y, z];
  }

  /** The key is up although the first finger still holds it. */
  lemma TwoFingersOneKey()
    ensures var t := Touch(1, map[0 := 1, 1 := 2], map[0 := 795, 1 := 795], map[0 := 5, 1 := 5], {}, map[]);
            var events := [Report(0.0, [KEY_BOX]), SetTrackingId(-1), Report(1.0, [KEY_BOX])];
            !LitAll(t, events, false, KeyLine(30)) && Holds(RecordedAll(t, events).held, 0, KeyLine(30))
  {
    var t := Touch(1, map[0 := 1, 1 := 2], map[0 := 795, 1 := 795], map[0 := 5, 1 := 5], {}, map[]);
    var lift := SetTrackingId(-1);
    ThreeEvents(t, Report(0.0, [KEY_BOX]), lift, Report(1.0, [KEY_BOX]), false, KeyLine(30));
    BothOnKey();
    var b := Recorded(Reported(t, [KEY_BOX]), lift);
    OneLeaves(b);
    assert Holds(b.held, 1, KeyLine(30)) && Entry(Reported(b, [KEY_BOX]).held, 1) == None;
    assert Entry(Reported(b, [KEY_BOX]).held, 0) == Some(KEY_BOX.target);
  }

  lemma NothingFollows(log: seq<Write>, held: map<int, Target>)
    ensures Follows(log, log, held, held)
  {
    forall l: Line | !l.ModLine? ensures LineFollows(log, log, held, held, l) {
      NoNewcomers(held, held, TargetOf(l));
    }
  }

  lemma FollowsSame(a: seq<Write>, b: seq<Write>, x: map<int, Target>, y: map<int, Target>,
                    p: map<int, Target>, q: map<int, Target>)
    requires (forall s :: Entry(x, s) == Entry(p, s)) && (forall s :: Entry(y, s) == Entry(q, s))
    requires Follows(a, b, x, y)
    ensures Follows(a, b, p, q)
  {
    forall l: Line | !l.ModLine? ensures LineFollows(a, b, p, q, l) {
      assert LineFollows(a, b, x, y, l);
      SameHolding(x, y, p, q, l);
      SameHolding(p, q, x, y, l);
      SameNewcomers(x, y, p, q, TargetOf(l));
    }
    forall s ensures Entry(p, s) == None || Entry(q, s) == None || Entry(q, s) == Entry(p, s) {
      assert Entry(x, s) == Entry(p, s) && Entry(y, s) == Entry(q, s);
    }
  }

  /** Fingers that hold something were seen, and of those seen all is known. */
  ghost predicate Known(held: map<int, Target>, lastX: map<int, int>, lastY: map<int, int>,
                        startPos: map<int, (int, int)>, startTime: map<int, real>) {
    && (forall s :: s in held ==> s in lastX)
    && (forall s :: s in lastX ==> s in lastY && s in startPos && s in startTime)
  }

  ghost predicate HasRaw(lastX: map<int, int>, rawX: map<int, int>, rawY: map<int, int>) {
    forall s :: s in lastX ==> s in rawX && s in rawY
  }

  lemma KnownWithout(held: map<int, Target>, lastX: map<int, int>, lastY: map<int, int>,
                     startPos: map<int, (int, int)>, startTime: map<int, real>,
                     rawX: map<int, int>, rawY: map<int, int>, s: int)
    requires Known(held, lastX, lastY, startPos, startTime) && HasRaw(lastX, rawX, rawY)
    ensures Known(held - {s}, lastX - {s}, lastY - {s}, startPos - {s}, startTime - {s})
    ensures HasRaw(lastX - {s}, rawX, rawY)
  {
  }

  lemma KnownHolding(held: map<int, Target>, lastX: map<int, int>, lastY: map<int, int>,
                     startPos: map<int, (int, int)>, startTime: map<int, real>, s: int, t: Target)
    requires Known(held, lastX, lastY, startPos, startTime) && s in lastX
    ensures Known(held[s := t], lastX, lastY, startPos, startTime)
  {
  }

  lemma RawGrows(lastX: map<int, int>, rawX: map<int, int>, rawY: map<int, int>, s: int, v: int)
    requires HasRaw(lastX, rawX, rawY)
    ensures HasRaw(lastX, rawX[s := v], rawY) && HasRaw(lastX, rawX, rawY[s := v])
  {
  }

  /** One finger was looked at: it is seen now, and what it holds is new only if it had not been. */
  ghost predicate Took(held: map<int, Target>, seen: set<int>, after: map<int, Target>, seenAfter: set<int>, s: int,
                       landing: Option<Target>) {
    && seenAfter == seen + {s}
    && (forall t :: t != s || s in seen ==> Entry(after, t) == Entry(held, t))
    && (s !in seen ==> Entry(after, s) == landing)
  }

  /** All fingers down but `rest` were looked at. */
  ghost predicate Tracked(down: set<int>, rest: set<int>, was: map<int, Target>, wasSeen: set<int>,
                          held: map<int, Target>, seen: set<int>, pad: set<int>,
                          rawX: map<int, int>, rawY: map<int, int>, hitboxes: seq<Hitbox>) {
    && wasSeen <= down
    && (forall s :: s in was ==> s in wasSeen)
    && (forall s :: s in seen <==> s in wasSeen || (s in down && s !in rest && s in rawX && s in rawY))
    && (forall s :: Entry(held, s) ==
          if s in rest then Entry(was, s) else Next(down, was, wasSeen, s, Landing(rawX, rawY, hitboxes, s)))
    && (forall s :: s in pad <==> s in seen && s !in held && s !in rest)
  }

  lemma TrackStart(down: set<int>, held: map<int, Target>, lastX: map<int, int>,
                   rawX: map<int, int>, rawY: map<int, int>, hitboxes: seq<Hitbox>)
    requires (forall s :: s in held ==> s in lastX) && (forall s :: s in lastX ==> s in down)
    ensures Tracked(down, down, held, lastX.Keys, held, lastX.Keys, {}, rawX, rawY, hitboxes)
  {
    assert forall s :: s in lastX.Keys ==> s in down;
    forall s ensures s !in down ==> Entry(held, s) == None {
      assert s in held ==> s in lastX;
    }
  }

  lemma TrackStep(down: set<int>, rest: set<int>, was: map<int, Target>, wasSeen: set<int>,
                  held: map<int, Target>, seen: set<int>, after: map<int, Target>, seenAfter: set<int>, pad: set<int>,
                  rawX: map<int, int>, rawY: map<int, int>, hitboxes: seq<Hitbox>, s: int)
    requires Tracked(down, rest, was, wasSeen, held, seen, pad, rawX, rawY, hitboxes)
    requires s in rest && s in down && s in rawX && s in rawY
    requires Took(held, seen, after, seenAfter, s, Landing(rawX, rawY, hitboxes, s))
    ensures Tracked(down, rest - {s}, was, wasSeen, after, seenAfter, if s in after then pad else pad + {s},
                    rawX, rawY, hitboxes)
  {
    assert Entry(held, s) == Entry(was, s);
    assert Entry(after, s) == Next(down, was, wasSeen, s, Landing(rawX, rawY, hitboxes, s));
    forall t | t != s ensures (t in after <==> t in held) && (t in seenAfter <==> t in seen) {
      assert Entry(after, t) == Entry(held, t);
    }
  }

  /** A finger whose coordinates are not known yet is left for later. */
  lemma TrackSkip(down: set<int>, rest: set<int>, was: map<int, Target>, wasSeen: set<int>,
                  held: map<int, Target>, seen: set<int>, pad: set<int>,
                  rawX: map<int, int>, rawY: map<int, int>, hitboxes: seq<Hitbox>, s: int)
    requires Tracked(down, rest, was, wasSeen, held, seen, pad, rawX, rawY, hitboxes)
    requires s in rest && !(s in rawX && s in rawY) && (s in wasSeen ==> s in rawX && s in rawY)
    ensures Tracked(down, rest - {s}, was, wasSeen, held, seen, pad, rawX, rawY, hitboxes)
  {
    assert Entry(held, s) == Entry(was, s) == None;
  }

  /** Four fingers are ignored; up to three are seen once their coordinates are known. */
  lemma FewAreSeen(t: Touch, hitboxes: seq<Hitbox>, s: int)
    ensures |DownSlots(t.tracking)| >= 4 ==> Reported(t, hitboxes) == t
    ensures |DownSlots(t.tracking)| <= 3 ==>
              (s in Reported(t, hitboxes).seen <==> s in DownSlots(t.tracking) && s in t.rawX && s in t.rawY)
  {
  }

  /** A finger keeps what it has while it is down, takes what it lands on when it is new, and loses it when it lifts. */
  lemma ReportedEntry(t: Touch, hitboxes: seq<Hitbox>, s: int)
    requires |DownSlots(t.tracking)| <= 3
    ensures var after := Entry(Reported(t, hitboxes).held, s);
            && (s !in DownSlots(t.tracking) ==> after == None)
            && (s in DownSlots(t.tracking) && s in t.seen ==> after == Entry(t.held, s))
            && (s in DownSlots(t.tracking) && s !in t.seen ==> after == Landing(t.rawX, t.rawY, hitboxes, s))
  {
  }

  function TapWrites(tapped: bool): seq<Write> {
    if tapped then [Write(ButtonLine(BTN_LEFT), true), Write(ButtonLine(BTN_LEFT), false)] else []
  }

  lemma OneOut(all: set<int>, rest: set<int>, s: int)
    requires s in rest
    ensures |all - (rest - {s})| == |all - rest| + if s in all then 1 else 0
  {
    if s in all {
      assert all - (rest - {s}) == (all - rest) + {s};
    } else {
      assert all - (rest - {s}) == all - rest;
    }
  }

  class Dock {
    var slot: int
    var tracking: map<int, int>
    var rawX: map<int, int>
    var rawY: map<int, int>
    var lastX: map<int, int>
    var lastY: map<int, int>
    var startPos: map<int, (int, int)>
    var startTime: map<int, real>
    var held: map<int, Target>
    var modCtrl: bool
    var modAlt: bool
    var modSuper: bool
    var modShift: bool
    var modCaps: bool
    var log: seq<Write>
    var actions: nat

    ghost function Flags(): Mods
      reads this
    {
      Mods(modCtrl, modAlt, modSuper, modShift, modCaps)
    }

    /** A finger that has been seen has a position, a start and known raw coordinates. */
    ghost predicate Fingers()
      reads this
    {
      Known(held, lastX, lastY, startPos, startTime) && HasRaw(lastX, rawX, rawY)
    }

    ghost predicate Valid()
      reads this
    {
      Fingers() && Balanced(log, held) && ModsShown(log, Flags())
    }

    constructor ()
      ensures Valid() && log == [] && Is(Touch(0, map[], map[], map[], {}, map[]))
    {
      slot, tracking, rawX, rawY, lastX, lastY := 0, map[], map[], map[], map[], map[];
      startPos, startTime, held := map[], map[], map[];
      modCtrl, modAlt, modSuper, modShift, modCaps := false, false, false, false, false;
      log, actions := [], 0;
      new;
      StartsSettled();
    }

    /** A key or button, which no modifier flag depends on. */
    method WriteKey(line: Line, down: bool)
      requires !line.ModLine? && ModsShown(log, Flags())
      modifies this`log
      ensures log == old(log) + [Write(line, down)] && ModsShown(log, Flags())
      ensures Moves(old(log), log, Some(line), if down then 1 else -1)
    {
      OtherWrite(log, Flags(), Write(line, down));
      MovesWrite(log, Write(line, down));
      log := log + [Write(line, down)];
    }

    method TapClick(button: nat)
      requires ModsShown(log, Flags())
      modifies this`log
      ensures log == old(log) + [Write(ButtonLine(button), true), Write(ButtonLine(button), false)]
      ensures ModsShown(log, Flags()) && Clicks(old(log), log, ButtonLine(button))
    {
      WriteKey(ButtonLine(button), true);
      ghost var between := log;
      WriteKey(ButtonLine(button), false);
      DownAndUp(old(log), between, log, ButtonLine(button));
    }

    /** The Caps key is clicked, and the flag counts clicks modulo two. */
    method PressCaps()
      requires ModsShown(log, Flags())
      modifies this`log, this`modCaps
      ensures ModsShown(log, Flags()) && modCaps == !old(modCaps) && Moves(old(log), log, None, 0)
    {
      CapsClick(log, Flags());
      modCaps := !modCaps;
      log := log + [Write(ModLine(Caps), true)];
      log := log + [Write(ModLine(Caps), false)];
    }

    /** Tells the device about one modifier whose flag changed from `was`. */
    method Tell(m: Modifier, down: bool, ghost was: Mods)
      requires m != Caps && ModsShown(log, was)
      modifies this`log
      ensures log == old(log) + [Write(ModLine(m), down)] && ModsShown(log, WithFlag(was, m, down))
      ensures Moves(old(log), log, None, 0)
    {
      FlagWrite(log, was, m, down);
      log := log + [Write(ModLine(m), down)];
    }

    /** Toggles a modifier; Caps is clicked instead, and only its flag toggles. */
    method PressModifier(m: Modifier)
      requires ModsShown(log, Flags())
      modifies this`log, this`modCtrl, this`modAlt, this`modSuper, this`modShift, this`modCaps
      ensures ModsShown(log, Flags()) && Moves(old(log), log, None, 0)
      ensures Flags() == WithFlag(old(Flags()), m, !Flag(old(Flags()), m))
    {
      if m == Caps {
        PressCaps();
        return;
      }
      ghost var was := Flags();
      match m {
        case Ctrl =>
          modCtrl := !modCtrl;
          Tell(Ctrl, modCtrl, was);
        case Alt =>
          modAlt := !modAlt;
          Tell(Alt, modAlt, was);
        case Super =>
          modSuper := !modSuper;
          Tell(Super, modSuper, was);
        case Shift =>
          modShift := !modShift;
          Tell(Shift, modShift, was);
      }
    }

    /** Lets go of one modifier that is down. */
    method LetGo(m: Modifier)
      requires ModsShown(log, Flags()) && m != Caps
      modifies this`log, this`modCtrl, this`modAlt, this`modSuper, this`modShift
      ensures ModsShown(log, Flags()) && Flags() == WithFlag(old(Flags()), m, false)
      ensures Moves(old(log), log, None, 0)
      ensures log == if Flag(old(Flags()), m) then old(log) + [Write(ModLine(m), false)] else old(log)
    {
      if Flag(Mods(modCtrl, modAlt, modSuper, modShift, modCaps), m) {
        Tell(m, false, Flags());
        match m {
          case Ctrl => modCtrl := false;
          case Alt => modAlt := false;
          case Super => modSuper := false;
          case Shift => modShift := false;
        }
      }
    }

    /** After a key every sticky modifier is let go: shift first, then the other three. */
    method ReleaseModifiers()
      requires ModsShown(log, Flags())
      modifies this`log, this`modCtrl, this`modAlt, this`modSuper, this`modShift
      ensures ModsShown(log, Flags()) && Flags() == Mods(false, false, false, false, old(modCaps))
      ensures Moves(old(log), log, None, 0)
    {
      LetGo(Shift);
      ghost var a := log;
      LetGo(Ctrl);
      ghost var b := log;
      MovesOn(old(log), a, b, None, 0, 0);
      LetGo(Alt);
      ghost var c := log;
      MovesOn(old(log), b, c, None, 0, 0);
      LetGo(Super);
      MovesOn(old(log), c, log, None, 0, 0);
    }

    method PressKey(code: Code)
      requires ModsShown(log, Flags())
      modifies this`log, this`modCtrl, this`modAlt, this`modSuper, this`modShift, this`modCaps
      ensures ModsShown(log, Flags()) && Moves(old(log), log, LineOf(Key(code)), 1)
      ensures code.Plain? ==> log == old(log) + [Write(KeyLine(code.key), true)] && Flags() == old(Flags())
      ensures code.Mod? ==> Flags() == WithFlag(old(Flags()), code.modifier, !Flag(old(Flags()), code.modifier))
    {
      match code {
        case Mod(m) =>
          PressModifier(m);
        case Plain(k) =>
          WriteKey(KeyLine(k), true);
      }
    }

    /** The key goes up once and takes the sticky modifiers with it; a modifier's own release does nothing. */
    method ReleaseKey(code: Code)
      requires ModsShown(log, Flags())
      modifies this`log, this`modCtrl, this`modAlt, this`modSuper, this`modShift
      ensures ModsShown(log, Flags()) && Moves(old(log), log, LineOf(Key(code)), -1)
      ensures code.Plain? ==> Flags() == Mods(false, false, false, false, old(modCaps))
      ensures code.Plain? ==> old(log) + [Write(KeyLine(code.key), false)] <= log
      ensures code.Mod? ==> log == old(log) && Flags() == old(Flags())
    {
      if code.Mod? {
        return;
      }
      WriteKey(KeyLine(code.key), false);
      ghost var between := log;
      ReleaseModifiers();
      MovesOn(old(log), between, log, LineOf(Key(code)), -1, 0);
    }

    /** A new finger on a target: its line, if it has one, goes down once. */
    method Press(t: Target)
      requires ModsShown(log, Flags())
      modifies this`log, this`modCtrl, this`modAlt, this`modSuper, this`modShift, this`modCaps
      ensures ModsShown(log, Flags()) && Moves(old(log), log, LineOf(t), 1)
      ensures LineOf(t).Some? ==> log == old(log) + [Write(LineOf(t).value, true)] && Flags() == old(Flags())
      ensures t == Top ==> log == old(log) && Flags() == old(Flags())
      ensures t.Key? && t.code.Mod? ==>
                Flags() == WithFlag(old(Flags()), t.code.modifier, !Flag(old(Flags()), t.code.modifier))
    {
      match t {
        case Key(code) =>
          PressKey(code);
        case Mouse(b) =>
          WriteKey(ButtonLine(b), true);
        case Top =>
      }
    }

    /** The finger is gone: its line, if it has one, goes up once. */
    method Release(t: Target)
      requires ModsShown(log, Flags())
      modifies this`log, this`modCtrl, this`modAlt, this`modSuper, this`modShift
      ensures ModsShown(log, Flags()) && Moves(old(log), log, LineOf(t), -1)
      ensures Flags() == if t.Key? && t.code.Plain? then Mods(false, false, false, false, old(modCaps)) else old(Flags())
      ensures LineOf(t) == None ==> log == old(log)
      ensures t.Mouse? ==> log == old(log) + [Write(ButtonLine(t.button), false)]
    {
      match t {
        case Key(code) =>
          ReleaseKey(code);
        case Mouse(b) =>
          WriteKey(ButtonLine(b), false);
        case Top =>
      }
    }

    // ----- One report -------------------------------------------------------

    /** Drops a target from the table after its release. */
    method ReleaseHeld(s: int)
      requires s in held && Balanced(log, held) && ModsShown(log, Flags())
      modifies this`held, this`log, this`modCtrl, this`modAlt, this`modSuper, this`modShift
      ensures held == old(held) - {s} && Balanced(log, held) && ModsShown(log, Flags()) && old(log) <= log
      ensures Lifts(old(log), log, old(held), held) && Downs(log, LEFT) == Downs(old(log), LEFT)
      ensures ModsLift(old(Flags()), Flags(), old(held), held)
    {
      ghost var before := held;
      var t := held[s];
      held := held - {s};
      Release(t);
      ReleaseSettles(old(log), log, before, s);
      ReleaseLifts(old(log), log, before, s);
      ReleaseMods(old(Flags()), before, s);
      assert MovedBy(old(log), log, LEFT, LineOf(t), -1);
    }

    /** A free finger that stayed close to its start for a short time: lifting it clicks. */
    ghost predicate Taps(s: int, now: real)
      requires Fingers() && s in lastX
      reads this
    {
      s !in held && Near((lastX[s], lastY[s]), startPos[s], 25) && now - startTime[s] < 0.35
    }

    /** A finger on a top button that stayed close to its start: lifting it takes the action. */
    ghost predicate Acts(s: int)
      requires Fingers() && s in lastX
      reads this
    {
      s in held && held[s] == Top && Near((lastX[s], lastY[s]), startPos[s], 40)
    }

    /** The fingers whose lifting clicks, and those whose lifting takes an action. */
    ghost function Tapping(down: set<int>, now: real): set<int>
      requires Fingers()
      reads this
    {
      set s | s in lastX && s !in down && Taps(s, now)
    }

    ghost function Acting(down: set<int>): set<int>
      requires Fingers()
      reads this
    {
      set s | s in lastX && s !in down && Acts(s)
    }

    /** What lifting finger `s` writes: a release of what it held, or a click after a short still touch. */
    method Lifted(s: int, last: (int, int), start: (int, int), duration: real)
      requires Balanced(log, held) && ModsShown(log, Flags())
      modifies this`held, this`log, this`actions, this`modCtrl, this`modAlt, this`modSuper, this`modShift
      ensures held == old(held) - {s} && Balanced(log, held) && ModsShown(log, Flags()) && old(log) <= log
      ensures s !in old(held) ==> log == old(log) + TapWrites(Near(last, start, 25) && duration < 0.35)
      ensures actions == old(actions) + if s in old(held) && old(held)[s] == Top && Near(last, start, 40) then 1 else 0
      ensures Lifts(old(log), log, old(held), held) && ModsLift(old(Flags()), Flags(), old(held), held)
      ensures Downs(log, LEFT) == Downs(old(log), LEFT) +
              if s !in old(held) && Near(last, start, 25) && duration < 0.35 then 1 else 0
    {
      if s in held {
        if held[s] == Top && Near(last, start, 40) {
          actions := actions + 1;
        }
        ReleaseHeld(s);
      } else {
        assert held == held - {s};
        NothingLifts(log, held);
        ModsStay(Flags(), held);
        if Near(last, start, 25) && duration < 0.35 {
          TapClick(BTN_LEFT);
          ClickSettles(old(log), log, held, LEFT);
          ClickLifts(old(log), log, held);
          assert ClickedBy(old(log), log, LEFT, LEFT);
        }
      }
    }

    method Forget(s: int)
      requires Fingers()
      modifies this`lastX, this`lastY, this`startPos, this`startTime
      ensures lastX == old(lastX) - {s} && lastX.Keys == old(lastX.Keys) - {s} && lastY == old(lastY) - {s}
      ensures startPos == old(startPos) - {s} && startTime == old(startTime) - {s}
      ensures Known(held - {s}, lastX, lastY, startPos, startTime) && HasRaw(lastX, rawX, rawY)
    {
      KnownWithout(held, lastX, lastY, startPos, startTime, rawX, rawY, s);
      startPos, startTime := startPos - {s}, startTime - {s};
      lastX, lastY := lastX - {s}, lastY - {s};
    }

    /** Forgets a lifted finger. */
    method LiftFinger(s: int, now: real)
      requires Valid() && s in lastX
      modifies this`lastX, this`lastY, this`startPos, this`startTime, this`held, this`log, this`actions,
               this`modCtrl, this`modAlt, this`modSuper, this`modShift
      ensures Valid() && held == old(held) - {s} && lastX.Keys == old(lastX.Keys) - {s} && old(log) <= log
      ensures Lifts(old(log), log, old(held), held) && ModsLift(old(Flags()), Flags(), old(held), held)
      ensures lastX == old(lastX) - {s} && lastY == old(lastY) - {s}
      ensures startPos == old(startPos) - {s} && startTime == old(startTime) - {s}
      ensures Downs(log, LEFT) == Downs(old(log), LEFT) + if old(Taps(s, now)) then 1 else 0
      ensures actions == old(actions) + if old(Acts(s)) then 1 else 0
      ensures s !in old(held) ==> log == old(log) + TapWrites(
                Near((old(lastX)[s], old(lastY)[s]), old(startPos)[s], 25) && now - old(startTime)[s] < 0.35)
    {
      var start, begun := startPos[s], startTime[s];
      var last := (lastX[s], lastY[s]);
      Forget(s);
      Lifted(s, last, start, now - begun);
    }

    /** Of the fingers still to be lifted, `taps` will click and `acts` will act. */
    ghost predicate Waiting(rest: set<int>, now: real, taps: set<int>, acts: set<int>)
      requires Fingers()
      reads this
    {
      forall s :: s in rest ==> s in lastX && Taps(s, now) == (s in taps) && Acts(s) == (s in acts)
    }

    /** Of what was `held` and `seen` all is left but the fingers that are neither down nor waiting. */
    ghost predicate Lifting(down: set<int>, rest: set<int>, was: map<int, Target>, seen: set<int>)
      reads this
    {
      && (forall s :: s in rest ==> s !in down && s in lastX)
      && (forall s :: s in lastX <==> s in seen && (s in down || s in rest))
      && (forall s :: Entry(held, s) == if s in down || s in rest then Entry(was, s) else None)
    }

    /** The clicks and actions since the log was `first` and the count `n`. */
    ghost predicate Counted(first: seq<Write>, n: nat, taps: set<int>, acts: set<int>)
      reads this
    {
      Downs(log, LEFT) == Downs(first, LEFT) + |taps| && actions == n + |acts|
    }

    method LiftNext(s: int, now: real, ghost rest: set<int>, ghost taps: set<int>, ghost acts: set<int>,
                    ghost first: seq<Write>, ghost n: nat)
      requires Valid() && s in rest && Waiting(rest, now, taps, acts) && Counted(first, n, taps - rest, acts - rest)
      modifies this`lastX, this`lastY, this`startPos, this`startTime, this`held, this`log, this`actions,
               this`modCtrl, this`modAlt, this`modSuper, this`modShift
      ensures Valid() && held == old(held) - {s} && lastX.Keys == old(lastX.Keys) - {s} && old(log) <= log
      ensures Lifts(old(log), log, old(held), held) && ModsLift(old(Flags()), Flags(), old(held), held)
      ensures Waiting(rest - {s}, now, taps, acts)
      ensures Counted(first, n, taps - (rest - {s}), acts - (rest - {s}))
    {
      LiftFinger(s, now);
      OneOut(taps, rest, s);
      OneOut(acts, rest, s);
    }

    method LiftStep(s: int, down: set<int>, now: real, ghost rest: set<int>, ghost taps: set<int>, ghost acts: set<int>,
                    ghost first: seq<Write>, ghost n: nat, ghost flags: Mods,
                    ghost was: map<int, Target>, ghost seen: set<int>)
      requires Valid() && s in rest && Waiting(rest, now, taps, acts) && Counted(first, n, taps - rest, acts - rest)
      requires first <= log && Lifts(first, log, was, held) && ModsLift(flags, Flags(), was, held)
      requires Lifting(down, rest, was, seen)
      modifies this`lastX, this`lastY, this`startPos, this`startTime, this`held, this`log, this`actions,
               this`modCtrl, this`modAlt, this`modSuper, this`modShift
      ensures Valid() && Waiting(rest - {s}, now, taps, acts) && Counted(first, n, taps - (rest - {s}), acts - (rest - {s}))
      ensures first <= log && Lifts(first, log, was, held) && ModsLift(flags, Flags(), was, held)
      ensures Lifting(down, rest - {s}, was, seen)
    {
      ghost var l, h, f := log, held, Flags();
      LiftNext(s, now, rest, taps, acts, first, n);
      LiftsOn(first, l, log, was, h, held);
      ModsLiftOn(flags, f, Flags(), was, h, held);
    }

    lemma AllWait(down: set<int>, now: real)
      requires Valid()
      ensures var rest, taps, acts := lastX.Keys - down, Tapping(down, now), Acting(down);
              && taps - rest == {} && acts - rest == {} && taps - {} == taps && acts - {} == acts
              && Waiting(rest, now, taps, acts) && Lifting(down, rest, held, lastX.Keys)
    {
    }

    /** Lifts all of them, in any order. */
    method LiftRest(waiting: set<int>, down: set<int>, now: real, ghost taps: set<int>, ghost acts: set<int>)
      requires Valid() && Waiting(waiting, now, taps, acts) && Lifting(down, waiting, held, lastX.Keys)
      requires taps - waiting == {} && acts - waiting == {}
      modifies this`lastX, this`lastY, this`startPos, this`startTime, this`held, this`log, this`actions,
               this`modCtrl, this`modAlt, this`modSuper, this`modShift
      ensures Valid() && old(log) <= log && Lifts(old(log), log, old(held), held)
      ensures ModsLift(old(Flags()), Flags(), old(held), held)
      ensures Lifting(down, {}, old(held), old(lastX.Keys)) && Counted(old(log), old(actions), taps - {}, acts - {})
    {
      ghost var first, n, flags, was, seen := log, actions, Flags(), held, lastX.Keys;
      var rest := waiting;
      var next := Pick(rest);
      NothingLifts(log, held);
      ModsStay(flags, held);
      while next.Some?
        invariant Valid() && first <= log && Lifts(first, log, was, held) && ModsLift(flags, Flags(), was, held)
        invariant (next == None <==> rest == {}) && (next.Some? ==> next.value in rest)
        invariant Lifting(down, rest, was, seen) && Waiting(rest, now, taps, acts)
        invariant Counted(first, n, taps - rest, acts - rest)
        decreases |rest|
      {
        LiftStep(next.value, down, now, rest, taps, acts, first, n, flags, was, seen);
        rest := rest - {next.value};
        next := Pick(rest);
      }
    }

    /**
      Every finger that is no longer down is lifted, and no other. The left
      button is clicked once for every tap, and every top button's action taken.
     */
    method LiftFingers(down: set<int>, now: real)
      requires Valid()
      modifies this`lastX, this`lastY, this`startPos, this`startTime, this`held, this`log, this`actions,
               this`modCtrl, this`modAlt, this`modSuper, this`modShift
      ensures Valid() && old(log) <= log
      ensures forall s :: s in lastX <==> s in old(lastX) && s in down
      ensures forall s :: Entry(held, s) == if s in down then Entry(old(held), s) else None
      ensures Lifts(old(log), log, old(held), held) && ModsLift(old(Flags()), Flags(), old(held), held)
      ensures Counted(old(log), old(actions), old(Tapping(down, now)), old(Acting(down)))
    {
      AllWait(down, now);
      LiftRest(lastX.Keys - down, down, now, Tapping(down, now), Acting(down));
    }

    method Hold(s: int, t: Target)
      requires s !in held && Balanced(log, held) && ModsShown(log, Flags())
      modifies this`held, this`log, this`modCtrl, this`modAlt, this`modSuper, this`modShift, this`modCaps
      ensures held == old(held)[s := t] && Balanced(log, held) && ModsShown(log, Flags()) && old(log) <= log
      ensures Lands(old(log), log, old(held), held) && ModsLand(old(Flags()), Flags(), old(held), held)
    {
      ghost var before := held;
      HoldMods(Flags(), held, s, t);
      held := held[s := t];
      Press(t);
      HoldSettles(old(log), log, before, s, t);
      HoldLands(old(log), log, before, s, t);
    }

    /** Where and when a finger went down. */
    ghost function Began(s: int): ((int, int), real)
      reads this
    {
      if s in startPos && s in startTime then (startPos[s], startTime[s]) else ((0, 0), 0.0)
    }

    /** Enters a new finger at its raw position: the panel is mounted sideways. */
    method Note(s: int, now: real)
      requires Fingers() && s in rawX && s in rawY
      modifies this`lastX, this`lastY, this`startPos, this`startTime
      ensures Fingers() && lastX == old(lastX)[s := rawY[s]] && lastY == old(lastY)[s := 800 - rawX[s]]
      ensures startPos == old(startPos)[s := (lastX[s], lastY[s])] && startTime == old(startTime)[s := now]
    {
      var x, y := rawY[s], 800 - rawX[s];
      lastX, lastY := lastX[s := x], lastY[s := y];
      startPos, startTime := startPos[s := (x, y)], startTime[s := now];
    }

    /** A new finger keeps the target it lands on, or none for good: it then belongs to the trackpad. */
    method TouchDown(s: int, now: real, hitboxes: seq<Hitbox>) returns (onPad: bool)
      requires Valid() && s !in lastX && s in rawX && s in rawY
      modifies this`lastX, this`lastY, this`startPos, this`startTime, this`held, this`log,
               this`modCtrl, this`modAlt, this`modSuper, this`modShift, this`modCaps
      ensures Valid() && lastX == old(lastX)[s := rawY[s]] && old(log) <= log
      ensures startPos == old(startPos)[s := (rawY[s], 800 - rawX[s])] && startTime == old(startTime)[s := now]
      ensures onPad == (Landing(rawX, rawY, hitboxes, s) == None)
      ensures held == if onPad then old(held) else old(held)[s := Landing(rawX, rawY, hitboxes, s).value]
      ensures Lands(old(log), log, old(held), held) && ModsLand(old(Flags()), Flags(), old(held), held)
    {
      var target := FindHitbox(hitboxes, rawY[s], 800 - rawX[s]);
      onPad := target == None;
      Note(s, now);
      NothingLifts(log, held);
      ModsStay(Flags(), held);
      if !onPad {
        KnownHolding(held, lastX, lastY, startPos, startTime, s, target.value);
        Hold(s, target.value);
      }
    }

    /** One finger that is down: entered if it is new, and free exactly when it holds nothing. */
    method TrackFinger(s: int, now: real, hitboxes: seq<Hitbox>) returns (onPad: bool)
      requires Valid() && s in rawX && s in rawY
      modifies this`lastX, this`lastY, this`startPos, this`startTime, this`held, this`log,
               this`modCtrl, this`modAlt, this`modSuper, this`modShift, this`modCaps
      ensures Valid() && onPad == (s !in held) && old(log) <= log
      ensures Took(old(held), old(lastX.Keys), held, lastX.Keys, s, Landing(rawX, rawY, hitboxes, s))
      ensures forall t :: t != s || s in old(lastX) ==> Began(t) == old(Began(t))
      ensures s !in old(lastX) ==> Began(s) == ((rawY[s], 800 - rawX[s]), now)
      ensures Lands(old(log), log, old(held), held) && ModsLand(old(Flags()), Flags(), old(held), held)
    {
      NothingLifts(log, held);
      ModsStay(Flags(), held);
      onPad := s !in held;
      if s !in lastX {
        onPad := TouchDown(s, now, hitboxes);
      }
    }

    /** Every finger that is down is seen once; a held target is never changed, only taken up. */
    method TrackFingers(down: set<int>, now: real, hitboxes: seq<Hitbox>) returns (pad: set<int>)
      requires Valid() && forall s :: s in lastX ==> s in down
      modifies this`lastX, this`lastY, this`startPos, this`startTime, this`held, this`log,
               this`modCtrl, this`modAlt, this`modSuper, this`modShift, this`modCaps
      ensures Valid() && old(log) <= log
      ensures forall s :: s in lastX <==> s in down && s in rawX && s in rawY
      ensures forall s :: Entry(held, s) == Next(down, old(held), old(lastX).Keys, s, Landing(rawX, rawY, hitboxes, s))
      ensures forall s :: s in pad <==> s in lastX && s !in held
      ensures Lands(old(log), log, old(held), held) && ModsLand(old(Flags()), Flags(), old(held), held)
    {
      ghost var was, seen, flags := held, lastX.Keys, Flags();
      NothingLifts(log, held);
      ModsStay(flags, held);
      pad := {};
      var rest := down;
      var next := Pick(rest);
      TrackStart(down, held, lastX, rawX, rawY, hitboxes);
      while next.Some?
        invariant Valid() && rest <= down && old(log) <= log && Lands(old(log), log, was, held)
        invariant ModsLand(flags, Flags(), was, held)
        invariant (next == None <==> rest == {}) && (next.Some? ==> next.value in rest)
        invariant Tracked(down, rest, was, seen, held, lastX.Keys, pad, rawX, rawY, hitboxes)
        decreases |rest|
      {
        var s := next.value;
        if s in rawX && s in rawY {
          ghost var l, h, k, f := log, held, lastX.Keys, Flags();
          var onPad := TrackFinger(s, now, hitboxes);
          LandsOn(old(log), l, log, was, h, held);
          ModsLandOn(flags, f, Flags(), was, h, held);
          TrackStep(down, rest, was, seen, h, k, held, lastX.Keys, pad, rawX, rawY, hitboxes, s);
          if onPad {
            pad := pad + {s};
          }
        } else {
          TrackSkip(down, rest, was, seen, held, lastX.Keys, pad, rawX, rawY, hitboxes, s);
        }
        rest := rest - {s};
        next := Pick(rest);
      }
    }

    method MoveTo(s: int)
      requires Valid() && s in lastX
      modifies this`lastX, this`lastY
      ensures Valid() && lastX == old(lastX)[s := rawY[s]] && lastY == old(lastY)[s := 800 - rawX[s]]
    {
      lastX, lastY := lastX[s := rawY[s]], lastY[s := 800 - rawX[s]];
    }

    /** One free finger moves the pointer, two scroll; either way their positions are brought up to date. */
    method MovePad(pad: set<int>)
      requires Valid() && forall s :: s in pad ==> s in lastX
      modifies this`lastX, this`lastY
      ensures Valid() && forall s :: s in lastX <==> s in old(lastX)
      ensures forall s :: s in lastX && s !in pad ==> lastX[s] == old(lastX)[s]
      ensures |pad| <= 2 ==> forall s :: s in pad ==> UpToDate(s)
    {
      var first := Pick(pad);
      if first.Some? {
        MoveTo(first.value);
        var rest := pad - {first.value};
        var second := Pick(rest);
        if second.Some? {
          MoveTo(second.value);
          assert UpToDate(first.value) && UpToDate(second.value);
          assert |pad| <= 2 ==> |rest - {second.value}| == 0;
        } else {
          assert UpToDate(first.value) && pad == {first.value};
        }
      }
    }

    ghost predicate UpToDate(s: int)
      reads this
    {
      s in lastX && s in lastY && s in rawX && s in rawY && lastX[s] == rawY[s] && lastY[s] == 800 - rawX[s]
    }

    /** Lifts the fingers that left and enters those that are down. */
    method LiftAndTrack(down: set<int>, now: real, hitboxes: seq<Hitbox>) returns (pad: set<int>)
      requires Valid()
      modifies this`lastX, this`lastY, this`startPos, this`startTime, this`held, this`log, this`actions,
               this`modCtrl, this`modAlt, this`modSuper, this`modShift, this`modCaps
      ensures Valid() && old(log) <= log && forall s :: s in pad ==> s in lastX
      ensures forall s :: s in lastX <==> s in down && s in rawX && s in rawY
      ensures forall s ::
                Entry(held, s) == Next(down, old(held), old(lastX).Keys, s, Landing(rawX, rawY, hitboxes, s))
      ensures Follows(old(log), log, old(held), held) && ModsFollow(old(Flags()), Flags(), old(held), held)
      ensures Downs(log, LEFT) == Downs(old(log), LEFT) + |old(Tapping(down, now))|
                                  + |Newcomers(old(held), held, Mouse(BTN_LEFT))|
      ensures actions == old(actions) + |old(Acting(down))|
    {
      LiftFingers(down, now);
      ghost var l, h, f := log, held, Flags();
      pad := TrackFingers(down, now, hitboxes);
      GoneStayGone(down, old(held), h, held);
      ReportFollows(old(log), l, log, old(held), h, held);
      LeftLands(l, log, old(held), h, held);
      ModsReport(old(Flags()), f, Flags(), old(held), h, held);
    }

    /**
      One SYN_REPORT. Four fingers leave everything as it is. Otherwise a slot
      holds a target afterwards exactly when it is down and either held that
      target before or has just landed on it; and with no finger down, every
      key and button is up.
     */
    method OnReport(now: real, hitboxes: seq<Hitbox>) returns (processed: bool)
      requires Valid()
      modifies this`lastX, this`lastY, this`startPos, this`startTime, this`held, this`log, this`actions,
               this`modCtrl, this`modAlt, this`modSuper, this`modShift, this`modCaps
      ensures Valid() && processed == (|DownSlots(tracking)| < MAX_FINGERS) && old(log) <= log
      ensures !processed ==> log == old(log) && held == old(held) && lastX == old(lastX)
      ensures processed ==> forall s :: s in lastX <==> s in DownSlots(tracking) && s in rawX && s in rawY
      ensures processed ==> forall s ::
                Entry(held, s) == Next(DownSlots(tracking), old(held), old(lastX).Keys, s, Landing(rawX, rawY, hitboxes, s))
      ensures processed && DownSlots(tracking) == {} ==> AllUp()
      ensures processed ==> Follows(old(log), log, old(held), held)
      ensures if processed then ModsFollow(old(Flags()), Flags(), old(held), held) else Flags() == old(Flags())
      ensures processed ==>
                Downs(log, LEFT) == Downs(old(log), LEFT) + |old(Tapping(DownSlots(tracking), now))|
                                    + |Newcomers(old(held), held, Mouse(BTN_LEFT))|
      ensures processed ==> actions == old(actions) + |old(Acting(DownSlots(tracking)))|
    {
      var down := DownSlots(tracking);
      if |down| >= MAX_FINGERS {
        return false;
      }
      var pad := LiftAndTrack(down, now, hitboxes);
      MovePad(pad);
      processed := true;
      if down == {} {
        forall line: Line | !line.ModLine? ensures Balance(log, line) == 0 && !Value(log, line) {
          NothingHeldAllUp(log, held, line);
        }
      }
    }

    /** Every key and button is up, and has been released as often as pressed. */
    ghost predicate AllUp()
      reads this
    {
      forall line: Line :: !line.ModLine? ==> Balance(log, line) == 0 && !Value(log, line)
    }

    // ----- Any run ----------------------------------------------------------

    /** The dictionaries are those of `t`. */
    ghost predicate Is(t: Touch)
      reads this
    {
      && slot == t.slot && tracking == t.tracking && rawX == t.rawX && rawY == t.rawY
      && (forall s :: s in lastX <==> s in t.seen) && (forall s :: Entry(held, s) == Entry(t.held, s))
    }

    /** A report, as a step of the loop's view. */
    method HandleReport(now: real, hitboxes: seq<Hitbox>, ghost t: Touch)
      requires Valid() && Is(t)
      modifies this`lastX, this`lastY, this`startPos, this`startTime, this`held, this`log, this`actions,
               this`modCtrl, this`modAlt, this`modSuper, this`modShift, this`modCaps
      ensures Valid() && Is(Reported(t, hitboxes)) && old(log) <= log
      ensures DownSlots(t.tracking) == {} ==> AllUp()
      ensures Follows(old(log), log, t.held, Reported(t, hitboxes).held)
      ensures ModsFollow(old(Flags()), Flags(), t.held, Reported(t, hitboxes).held)
    {
      ghost var before := held;
      var processed := OnReport(now, hitboxes);
      if processed {
        FollowsSame(old(log), log, before, held, t.held, Reported(t, hitboxes).held);
        SameMods(old(Flags()), Flags(), before, held, t.held, Reported(t, hitboxes).held);
      } else {
        NothingFollows(log, t.held);
        ModsStay(Flags(), t.held);
      }
    }

    /** A slot, a tracking id or a coordinate. */
    method Record(ev: Event, ghost t: Touch)
      requires Valid() && Is(t) && !ev.Report?
      modifies this`slot, this`tracking, this`rawX, this`rawY
      ensures Valid() && Is(Recorded(t, ev))
    {
      if ev.SetX? || ev.SetY? {
        RawGrows(lastX, rawX, rawY, slot, ev.value);
      }
      match ev {
        case SetSlot(v) =>
          slot := v;
        case SetTrackingId(v) =>
          tracking := tracking[slot := v];
        case SetX(v) =>
          rawX := rawX[slot := v];
        case SetY(v) =>
          rawY := rawY[slot := v];
      }
    }

    /** One event: it is recorded, and only a report writes anything. */
    method Handle(ev: Event, ghost t: Touch)
      requires Valid() && Is(t)
      modifies this
      ensures Valid() && Is(Recorded(t, ev)) && old(log) <= log
      ensures ev.Report? && DownSlots(t.tracking) == {} ==> AllUp()
      ensures Shows(old(log), log, t, ev) && FlagsStep(old(Flags()), Flags(), t, ev)
    {
      if ev.Report? {
        HandleReport(ev.now, ev.hitboxes, t);
      } else {
        Record(ev, t);
      }
    }

    /** One event of a sequence; `first` is the log before the sequence. */
    method HandleNext(events: seq<Event>, n: nat, ghost t: Touch, ghost first: seq<Write>, ghost flags: Mods)
      requires n < |events| && Valid() && Is(RecordedAll(t, events[..n]))
      requires first <= log && LinesShown(first, log, t, events[..n]) && FlagsShown(flags, Flags(), t, events[..n])
      modifies this
      ensures Valid() && Is(RecordedAll(t, events[..n + 1]))
      ensures first <= log && LinesShown(first, log, t, events[..n + 1])
      ensures FlagsShown(flags, Flags(), t, events[..n + 1])
      ensures events[n].Report? && DownSlots(RecordedAll(t, events[..n + 1]).tracking) == {} ==> AllUp()
    {
      ghost var l, f := log, Flags();
      Handle(events[n], RecordedAll(t, events[..n]));
      ShowsOn(first, l, log, t, events, n);
      FlagsOn(flags, f, Flags(), t, events, n);
    }

    /**
      Whatever the touchscreen sends, in whatever order, with whatever layouts:
      the slots and what they hold, the lines and the modifier flags are those
      of the events, and every key and button is down once per slot holding it.
      When the last event is a report and the events leave no finger down,
      everything is up.
     */
    method TouchLoop(events: seq<Event>, ghost t: Touch)
      requires Valid() && Is(t)
      modifies this
      ensures Valid() && Is(RecordedAll(t, events)) && old(log) <= log
      ensures events != [] && events[|events| - 1].Report? && DownSlots(RecordedAll(t, events).tracking) == {} ==> AllUp()
      ensures LinesShown(old(log), log, t, events) && FlagsShown(old(Flags()), Flags(), t, events)
    {
      for n := 0 to |events|
        invariant Valid() && Is(RecordedAll(t, events[..n])) && old(log) <= log
        invariant LinesShown(old(log), log, t, events[..n]) && FlagsShown(old(Flags()), Flags(), t, events[..n])
        invariant n > 0 && events[n - 1].Report? && DownSlots(RecordedAll(t, events[..n]).tracking) == {} ==> AllUp()
      {
        HandleNext(events, n, t, old(log), old(Flags()));
      }
      assert events[..|events|] == events;
    }
  }
}
