/**
 * Translation of the frontend's joypad state into the console's input byte.
 *
 * `btn_map` pairs seven libretro joypad ids with the console input bit each
 * one sets. `get_race_input_bitmasks` reads every button at once from the
 * joypad mask; `get_race_input` asks the frontend about each button in turn.
 * `race_input` uses the mask path when the frontend supports it.
 */
module Input {

  /** Joypad ids of the libretro API (RETRO_DEVICE_ID_JOYPAD_*). */
  const JoypadB: nat := 0
  const JoypadStart: nat := 3
  const JoypadUp: nat := 4
  const JoypadDown: nat := 5
  const JoypadLeft: nat := 6
  const JoypadRight: nat := 7
  const JoypadA: nat := 8

  /** Every console input bit that `btn_map` can set. */
  const ConsoleMask: bv32 := 0x7F

  /** The console inputs that `btn_map` covers. */
  datatype Button = A | B | Right | Left | Up | Down | Start

  const AllButtons: set<Button> := {A, B, Right, Left, Up, Down, Start}

  /** The rows of `btn_map`, in declaration order (which is also the order
      in which both translation loops visit them). */
  const ButtonOrder: seq<Button> := [A, B, Right, Left, Up, Down, Start]

  /** The `retro` column of `btn_map`: the frontend id of a button. */
  function RetroId(b: Button): nat {
    match b
    case A => JoypadA
    case B => JoypadB
    case Right => JoypadRight
    case Left => JoypadLeft
    case Up => JoypadUp
    case Down => JoypadDown
    case Start => JoypadStart
  }

  /** The `ngp` column of `btn_map`: the console input bit of a button. */
  function NgpBit(b: Button): bv32 {
    match b
    case A => 0x20
    case B => 0x10
    case Right => 0x08
    case Left => 0x04
    case Up => 0x01
    case Down => 0x02
    case Start => 0x40
  }

  /** The console input byte for a set of pressed buttons. */
  function ConsoleBits(pressed: set<Button>): (r: bv32)
    ensures r & !ConsoleMask == 0
  {
    (if A in pressed then 0x20 else 0)
    | (if B in pressed then 0x10 else 0)
    | (if Right in pressed then 0x08 else 0)
    | (if Left in pressed then 0x04 else 0)
    | (if Up in pressed then 0x01 else 0)
    | (if Down in pressed then 0x02 else 0)
    | (if Start in pressed then 0x40 else 0)
  }

  /** The encoding of a single button is that button's `ngp` entry, so the
      constants above are the table's, and the seven entries together make
      up the console mask. */
  lemma ConsoleBitsAgreesWithTable(b: Button)
    ensures ConsoleBits({b}) == NgpBit(b)
    ensures ConsoleBits(AllButtons) == ConsoleMask
  {
  }

  /** A button's console bit is set in the encoding exactly when the button
      is pressed. */
  lemma ConsoleBitsHas(pressed: set<Button>, b: Button)
    ensures (ConsoleBits(pressed) & NgpBit(b) != 0) <==> b in pressed
  {
  }

  /** Adding one pressed button ors in its console bit. */
  lemma ConsoleBitsInsert(pressed: set<Button>, b: Button)
    ensures ConsoleBits(pressed + {b}) == ConsoleBits(pressed) | NgpBit(b)
  {
  }

  /** The buttons a console input byte reports as pressed. */
  function ButtonsOf(bits: bv32): (s: set<Button>)
    ensures forall b: Button :: b in s <==> bits & NgpBit(b) != 0
  {
    set b | b in AllButtons && bits & NgpBit(b) != 0
  }

  /** The table is a bijection: distinct buttons have distinct frontend ids,
      and their console bits are distinct single bits inside 0x7F. */
  lemma TableIsInjective(b: Button, c: Button)
    ensures NgpBit(b) != 0 && NgpBit(b) & (NgpBit(b) - 1) == 0
    ensures NgpBit(b) & !ConsoleMask == 0
    ensures b != c ==> RetroId(b) != RetroId(c) && NgpBit(b) & NgpBit(c) == 0
  {
  }

  /** Decoding an encoded button set gives the set back. */
  lemma ButtonsOfConsoleBits(pressed: set<Button>)
    ensures ButtonsOf(ConsoleBits(pressed)) == pressed
  {
  }

  /** Encoding the decoded buttons keeps exactly the seven console bits. */
  lemma ConsoleBitsOfButtonsOf(bits: bv32)
    ensures ConsoleBits(ButtonsOf(bits)) == bits & ConsoleMask
  {
  }

  /** Bit `id` of the joypad mask `ret`, read as `ret & (1 << id)`. */
  predicate MaskHas(ret: bv32, id: nat)
    requires id < 32
  {
    ret & (1 << id) != 0
  }

  /** The buttons for which `held` is true. */
  function Held(held: Button -> bool): set<Button> {
    set b | b in AllButtons && held(b)
  }

  /** The buttons among the first `n` rows of `btn_map` for which `held` is
      true. */
  function HeldAmong(held: Button -> bool, n: nat): set<Button>
    requires n <= |ButtonOrder|
  {
    set b | b in ButtonOrder[..n] && held(b)
  }

  /** The loop shared by `get_race_input_bitmasks` and `get_race_input`,
      after its first `n` rows: `res |= held(row) ? ngp : 0`, where `held`
      is the path's test of the row's frontend button. */
  function OrRows(held: Button -> bool, n: nat): (res: bv32)
    requires n <= |ButtonOrder|
    ensures res == ConsoleBits(HeldAmong(held, n))
  {
    if n == 0 then
      assert HeldAmong(held, 0) == {};
      0
    else
      var b := ButtonOrder[n - 1];
      assert ButtonOrder[..n] == ButtonOrder[..n - 1] + [b];
      assert HeldAmong(held, n) == HeldAmong(held, n - 1) + (if held(b) then {b} else {});
      ConsoleBitsInsert(HeldAmong(held, n - 1), b);
      OrRows(held, n - 1) | (if held(b) then NgpBit(b) else 0)
  }

  /** Every button has a row. */
  lemma AllRowsVisited(held: Button -> bool)
    ensures HeldAmong(held, |ButtonOrder|) == Held(held)
  {
    assert ButtonOrder[..|ButtonOrder|] == ButtonOrder;
    forall b: Button ensures b in ButtonOrder {
      match b
      case A => assert ButtonOrder[0] == A;
      case B => assert ButtonOrder[1] == B;
      case Right => assert ButtonOrder[2] == Right;
      case Left => assert ButtonOrder[3] == Left;
      case Up => assert ButtonOrder[4] == Up;
      case Down => assert ButtonOrder[5] == Down;
      case Start => assert ButtonOrder[6] == Start;
    }
  }

  /** get_race_input_bitmasks: the console byte of exactly the buttons whose
      bit is set in the joypad mask. */
  function FromMask(ret: bv32): (res: bv32)
    ensures res == ConsoleBits(Held(b => MaskHas(ret, RetroId(b))))
  {
    AllRowsVisited(b => MaskHas(ret, RetroId(b)));
    OrRows(b => MaskHas(ret, RetroId(b)), |ButtonOrder|)
  }

  /** get_race_input: the console byte of exactly the buttons the frontend
      reports as pressed (a non-zero answer to the per-button query). */
  function FromQueries(query: nat -> int): (res: bv32)
    ensures res == ConsoleBits(Held(b => query(RetroId(b)) != 0))
  {
    AllRowsVisited(b => query(RetroId(b)) != 0);
    OrRows(b => query(RetroId(b)) != 0, |ButtonOrder|)
  }

  /** Bit by bit: a console bit is set exactly when the corresponding
      frontend button is pressed, and no bit outside 0x7F is ever set. */
  lemma TranslationBits(ret: bv32, query: nat -> int, b: Button)
    ensures FromMask(ret) & !ConsoleMask == 0 && FromQueries(query) & !ConsoleMask == 0
    ensures (FromMask(ret) & NgpBit(b) != 0) <==> MaskHas(ret, RetroId(b))
    ensures (FromQueries(query) & NgpBit(b) != 0) <==> query(RetroId(b)) != 0
  {
    ConsoleBitsHas(Held(c => MaskHas(ret, RetroId(c))), b);
    ConsoleBitsHas(Held(c => query(RetroId(c)) != 0), b);
  }

  /** race_input: the mask path when the frontend supports input bitmasks,
      the per-button path otherwise. */
  function RaceInput(supportsBitmasks: bool, ret: bv32, query: nat -> int): (res: bv32)
    ensures res & !ConsoleMask == 0
    ensures supportsBitmasks ==> res == FromMask(ret)
    ensures !supportsBitmasks ==> res == FromQueries(query)
  {
    if supportsBitmasks then FromMask(ret) else FromQueries(query)
  }

  /** The frontend's answers are consistent: each button's query agrees with
      its bit in the joypad mask. */
  predicate Consistent(ret: bv32, query: nat -> int) {
    forall b: Button :: (query(RetroId(b)) != 0) == MaskHas(ret, RetroId(b))
  }

  /** When the frontend's answers are consistent, both translation paths
      produce the same console input byte, so `race_input` does not depend
      on whether bitmasks are supported. */
  lemma PathsAgree(ret: bv32, query: nat -> int)
    requires Consistent(ret, query)
    ensures FromMask(ret) == FromQueries(query)
    ensures RaceInput(true, ret, query) == RaceInput(false, ret, query)
  {
  }
}
