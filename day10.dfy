/** The handheld device: a CPU running `noop`/`addx` instructions and a CRT
    that lights the pixel under the beam when the sprite (three pixels wide,
    centred on register X) covers it. */
module Day10 {
  import opened Wrappers
  import opened Text

  datatype Instruction = Noop | AddX(v: int)

  /** `get_clock_timing`: the cycles an instruction takes. */
  function ClockTiming(inst: Instruction): (t: nat)
    ensures t >= 1
    ensures inst.Noop? ==> t == 1
    ensures inst.AddX? ==> t == 2
  {
    match inst
    case Noop => 1
    case AddX(_) => 2
  }

  /** What an instruction adds to register X. */
  function Amount(inst: Instruction): int {
    match inst
    case Noop => 0
    case AddX(v) => v
  }

  datatype ParseError = InvalidInstructionCode | InvalidInteger

  const I32Min: int := -0x8000_0000
  const I32Max: int := 0x7fff_ffff

  /** `Instruction::try_from`: the opcode is the text before the first space
      (the whole line if there is none); `addx` takes an i32 after it. */
  function ParseInstruction(line: string): (r: Result<Instruction, ParseError>)
    ensures r.Success? && r.value.AddX? ==> I32Min <= r.value.v <= I32Max
  {
    var (code, rest) := match SplitOnce(line, ' ')
      case Some(p) => p
      case None => (line, "");
    if code == "noop" then Success(Noop)
    else if code == "addx" then
      match ParseInt(rest)
      case Some(v) => if I32Min <= v <= I32Max then Success(AddX(v)) else Failure(InvalidInteger)
      case None => Failure(InvalidInteger)
    else Failure(InvalidInstructionCode)
  }

  /** The opcode of a line, as `try_from` reads it. */
  function Opcode(line: string): string {
    match SplitOnce(line, ' ')
    case Some(p) => p.0
    case None => line
  }

  /** Only `noop` and `addx` are opcodes; any other one is refused. */
  lemma UnknownOpcodeFails(line: string)
    ensures ParseInstruction(line) == Failure(InvalidInstructionCode)
        <==> Opcode(line) != "noop" && Opcode(line) != "addx"
  {
  }

  function ShowInstruction(inst: Instruction): string {
    match inst
    case Noop => "noop"
    case AddX(v) => "addx " + IntToString(v)
  }

  /** A printed instruction parses back. */
  lemma ParseShowInstruction(inst: Instruction)
    requires inst.AddX? ==> I32Min <= inst.v <= I32Max
    ensures ParseInstruction(ShowInstruction(inst)) == Success(inst)
  {
    match inst
    case Noop =>
      assert ' ' !in "noop";
    case AddX(v) =>
      assert ' ' !in "addx";
      assert "addx " + IntToString(v) == "addx" + [' '] + IntToString(v);
      SplitOnceAt("addx", ' ', IntToString(v));
      ParseIntOfIntToString(v);
  }

  /** The cycles of a list of instructions. */
  function Cycles(code: seq<Instruction>): nat {
    if code == [] then 0 else Cycles(code[..|code| - 1]) + ClockTiming(code[|code| - 1])
  }

  /** The sum of the `addx` arguments of a list of instructions. */
  function Added(code: seq<Instruction>): int {
    if code == [] then 0 else Added(code[..|code| - 1]) + Amount(code[|code| - 1])
  }

  lemma {:induction false} CyclesOfPrefix(code: seq<Instruction>, i: nat)
    requires i <= |code|
    ensures Cycles(code[..i]) <= Cycles(code)
    decreases |code|
  {
    if i < |code| {
      assert code[..|code| - 1][..i] == code[..i];
      CyclesOfPrefix(code[..|code| - 1], i);
    } else {
      assert code[..i] == code;
    }
  }

  lemma PrefixStep(code: seq<Instruction>, pc: nat)
    requires pc < |code|
    ensures Cycles(code[..pc + 1]) == Cycles(code[..pc]) + ClockTiming(code[pc])
    ensures Added(code[..pc + 1]) == Added(code[..pc]) + Amount(code[pc])
  {
    assert code[..pc + 1][..pc] == code[..pc];
  }

  /** The successful ticks of a whole run: the first instruction takes one
      cycle more than its timing, because `last_instruction_clock` starts at
      0 together with the clock. */
  function TotalTicks(code: seq<Instruction>): nat {
    if code == [] then 0 else Cycles(code) + 1
  }

  class Cpu {
    var lastInstructionClock: nat
    var clock: nat
    var programCounter: nat
    const code: seq<Instruction>
    var x: int

    /** The state the clock can be in: the last instruction was executed at
        the cycle count of all instructions before the program counter. */
    predicate Valid()
      reads this
    {
      programCounter <= |code| &&
      lastInstructionClock == Cycles(code[..programCounter]) &&
      x == 1 + Added(code[..programCounter]) &&
      var lower := if programCounter == 0 then 0 else lastInstructionClock + 1;
      (programCounter < |code| ==>
        lower <= clock <= lastInstructionClock + ClockTiming(code[programCounter])) &&
      (programCounter == |code| ==> clock == lower)
    }

    constructor (code: seq<Instruction>)
      ensures this.code == code && clock == 0 && programCounter == 0
      ensures lastInstructionClock == 0 && x == 1
      ensures Valid()
    {
      this.code := code;
      lastInstructionClock := 0;
      clock := 0;
      programCounter := 0;
      x := 1;
    }

    /** `fetch_instruction`. */
    function FetchInstruction(): (r: Option<Instruction>)
      reads this
      ensures r.Some? <==> programCounter < |code|
      ensures r.Some? ==> r.value == code[programCounter]
    {
      if programCounter < |code| then Some(code[programCounter]) else None
    }

    /** `waiting_for_next_instruction`: the current instruction has not used
        up its cycles yet. */
    predicate Waiting()
      reads this
    {
      match FetchInstruction()
      case Some(inst) => clock < lastInstructionClock + ClockTiming(inst)
      case None => false
    }

    /** Register X after the next tick. */
    function NextX(): int
      reads this
    {
      if !Waiting() && programCounter < |code| then x + Amount(code[programCounter]) else x
    }

    /** `signal_strength`. */
    function SignalStrength(): int
      reads this
    {
      clock * x
    }

    /** `execute`: only `addx` changes X, by its argument. */
    method Execute(inst: Instruction)
      modifies this
      ensures x == old(x) + Amount(inst)
      ensures clock == old(clock) && programCounter == old(programCounter)
      ensures lastInstructionClock == old(lastInstructionClock)
    {
      match inst
      case Noop =>
      case AddX(v) => x := x + v;
    }

    /** `tick`: one clock cycle. It fails, changing nothing, exactly when the
        program counter is past the code; otherwise the clock advances by
        one, and an instruction whose cycles are used up is executed. */
    method Tick() returns (r: bool)
      requires Valid()
      modifies this
      ensures Valid()
      ensures r <==> old(programCounter) < |code|
      ensures r ==> clock == old(clock) + 1
      ensures !r ==> clock == old(clock)
      ensures x == old(NextX())
      ensures old(Waiting()) || !r ==>
        programCounter == old(programCounter) && lastInstructionClock == old(lastInstructionClock)
      ensures !old(Waiting()) && r ==>
        programCounter == old(programCounter) + 1 && lastInstructionClock == old(clock)
      ensures clock <= TotalTicks(code)
    {
      if Waiting() {
        clock := clock + 1;
        ClockBound();
        return true;
      }
      var instruction := FetchInstruction();
      if instruction.None? {
        ClockBound();
        return false;
      }
      PrefixStep(code, programCounter);
      Execute(instruction.value);
      programCounter := programCounter + 1;
      lastInstructionClock := clock;
      clock := clock + 1;
      ClockBound();
      return true;
    }

    /** The clock never passes the ticks of a whole run, so running until
        `tick` fails ends. */
    lemma ClockBound()
      requires Valid()
      ensures clock <= TotalTicks(code)
    {
      if programCounter < |code| {
        PrefixStep(code, programCounter);
        CyclesOfPrefix(code, programCounter + 1);
      } else {
        assert code[..programCounter] == code;
      }
    }

    /** When `tick` fails, the clock has counted every cycle of the program and
        X holds 1 plus all the `addx` arguments. */
    lemma Finished()
      requires Valid() && programCounter == |code|
      ensures clock == TotalTicks(code)
      ensures x == 1 + Added(code)
    {
      assert code[..programCounter] == code;
    }
  }

  /** `must_draw_pixel`: the beam column is within one of X. */
  predicate MustDraw(width: nat, position: nat, x: int)
    requires width > 0
  {
    position % width == x - 1 || position % width == x || position % width == x + 1
  }

  lemma MustDrawNear(width: nat, position: nat, x: int)
    requires width > 0
    ensures MustDraw(width, position, x) <==> -1 <= x - position % width <= 1
  {
  }

  class Crt {
    const width: nat
    const height: nat
    const screen: array<int>
    var position: nat
    /** The X value seen at each position the beam has passed. */
    ghost var seen: seq<int>

    /** Each pixel passed is lit iff the sprite covered it then; the rest are
        dark. */
    ghost predicate Valid()
      reads this, screen
    {
      width > 0 && |seen| == position &&
      forall p :: 0 <= p < screen.Length ==>
        screen[p] == if p < position && MustDraw(width, p, seen[p]) then 1 else 0
    }

    constructor (width: nat, height: nat)
      requires width > 0
      ensures this.width == width && this.height == height
      ensures screen.Length == width * height && fresh(screen)
      ensures position == 0 && Valid()
    {
      this.width := width;
      this.height := height;
      screen := new int[width * height](_ => 0);
      position := 0;
      seen := [];
    }

    /** `draw_pixel`; panics past the end of the screen. */
    method DrawPixel()
      requires position < screen.Length
      modifies screen
      ensures screen[..] == old(screen[..])[position := 1]
    {
      screen[position] := 1;
    }

    /** `tick`: lights the pixel under the beam if the sprite covers it, then
        moves the beam on. Lighting a pixel past the screen panics. */
    method Tick(x: int)
      requires Valid()
      requires MustDraw(width, position, x) ==> position < screen.Length
      modifies this, screen
      ensures Valid()
      ensures position == old(position) + 1 && seen == old(seen) + [x]
      ensures screen[..] == if MustDraw(width, old(position), x) then old(screen[..])[old(position) := 1] else old(screen[..])
    {
      if MustDraw(width, position, x) {
        DrawPixel();
      }
      seen := seen + [x];
      position := position + 1;
    }
  }

  class Device {
    const crt: Crt
    const cpu: Cpu

    ghost predicate Valid()
      reads this, crt, crt.screen, cpu
    {
      crt.Valid() && cpu.Valid()
    }

    constructor (instructions: seq<Instruction>, width: nat, height: nat)
      requires width > 0
      ensures fresh(crt) && fresh(crt.screen) && fresh(cpu)
      ensures cpu.code == instructions && cpu.clock == 0 && cpu.x == 1
      ensures crt.width == width && crt.screen.Length == width * height && crt.position == 0
      ensures Valid()
    {
      crt := new Crt(width, height);
      cpu := new Cpu(instructions);
    }

    /** `tick`: the CPU ticks, then the CRT draws with the new X, also when
        the CPU tick fails. */
    method Tick() returns (r: bool)
      requires Valid()
      requires MustDraw(crt.width, crt.position, cpu.NextX()) ==> crt.position < crt.screen.Length
      modifies crt, crt.screen, cpu
      ensures Valid()
      ensures r <==> old(cpu.programCounter) < |cpu.code|
      ensures cpu.clock == old(cpu.clock) + (if r then 1 else 0)
      ensures cpu.x == old(cpu.NextX())
      ensures crt.position == old(crt.position) + 1 && crt.seen == old(crt.seen) + [cpu.x]
    {
      r := cpu.Tick();
      crt.Tick(cpu.x);
    }
  }
}
