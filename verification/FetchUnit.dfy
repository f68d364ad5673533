/** The fetch queue. */
module FetchUnit {
  import opened Words
  import opened Instructions
  import opened Machines
  import opened Isa

  /** Each instruction stamped with its byte address. */
  function Stamped(code: seq<Instruction>): (r: seq<Instruction>)
    ensures |r| == |code|
    ensures forall i :: 0 <= i < |code| ==> r[i] == code[i].(pc := ByteAddr(i))
  {
    seq(|code|, i requires 0 <= i < |code| => code[i].(pc := ByteAddr(i)))
  }

  class InstructionQueue {
    const c: Config
    var program: seq<Instruction>
    /** The word index of the next instruction to fetch. */
    var pc: nat
    var buffer: seq<Instruction>

    ghost function View(): Queue
      reads this
    {
      Queue(pc, buffer)
    }

    constructor (c: Config)
      ensures this.c == c && program == [] && View() == Queue(0, [])
    {
      this.c, program, pc, buffer := c, [], 0, [];
    }

    method LoadProgram(code: seq<Instruction>)
      modifies this
      ensures program == Stamped(code) && View() == Queue(0, [])
    {
      program := code;
      var i := 0;
      while i < |program|
        invariant 0 <= i <= |program| == |code|
        invariant forall j :: 0 <= j < i ==> program[j] == code[j].(pc := ByteAddr(j))
        invariant forall j :: i <= j < |code| ==> program[j] == code[j]
      {
        program := program[i := program[i].(pc := ToWord(4 * i))];
        i := i + 1;
      }
      pc := 0;
      buffer := [];
    }

    method Tick()
      modifies this
      ensures program == old(program) && View() == FetchUpTo(c, program, old(View()), c.width)
    {
      var i := 0;
      while i < c.width
        invariant 0 <= i <= c.width && program == old(program)
        invariant View() == FetchUpTo(c, program, old(View()), i)
      {
        if pc >= |program| || |buffer| >= c.iqCapacity {
          FetchStuck(c, program, old(View()), i, c.width);
          return;
        }
        buffer := buffer + [program[pc]];
        pc := pc + 1;
        i := i + 1;
      }
    }

    predicate CanDispatch()
      reads this
    {
      buffer != []
    }

    function Front(): Instruction
      requires CanDispatch()
      reads this
    {
      buffer[0]
    }

    method Dispatch() returns (i: Instruction)
      requires CanDispatch()
      modifies this
      ensures program == old(program) && i == old(buffer)[0] && View() == Queue(old(pc), old(buffer)[1..])
    {
      i := buffer[0];
      buffer := buffer[1..];
    }

    predicate Done()
      reads this
    {
      pc >= |program| && buffer == []
    }

    method SeekTo(byteAddr: Word)
      modifies this
      ensures program == old(program) && View() == Seek(byteAddr)
    {
      buffer := [];
      pc := byteAddr / 4;
    }
  }

  /** Once fetching stops it stays stopped for the rest of the cycle. */
  lemma {:induction false} FetchStuck(c: Config, code: seq<Instruction>, q: Queue, m: nat, n: nat)
    requires m <= n
    requires var p := FetchUpTo(c, code, q, m); p.pc >= |code| || |p.buffer| >= c.iqCapacity
    ensures FetchUpTo(c, code, q, n) == FetchUpTo(c, code, q, m)
  {
    if m < n {
      FetchStuck(c, code, q, m, n - 1);
    }
  }
}
