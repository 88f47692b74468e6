/** The header reader that resolves conditionals: a stack of branch flags over the
    lines of the header, proved to give the structured meaning of nested
    if / elif / else / endif groups.
 */
module KernelHeaders {

  type Name = string

  /** A condition as it is spelled after #if or #elif. */
  type Expr = string

  /** A line of the header, by what its directive is. */
  datatype Line =
    | IfLine(expr: Expr)
    | IfdefLine(negated: bool, name: Name)
    | ElifLine(expr: Expr)
    | ElseLine
    | EndifLine
    | DefineLine(name: Name, text: string)
    | TextLine(text: string)
  {
    predicate Opens() { IfLine? || IfdefLine? }
    predicate Continues() { ElifLine? || ElseLine? || EndifLine? }
    predicate Plain() { DefineLine? || TextLine? }
  }

  /** Whether a condition holds, or that nothing here can say. */
  datatype Verdict = Known(value: bool) | Unknown

  /** The architecture: what it defines, what it is known not to define, and the
      evaluator of #if expressions given what is defined so far. */
  datatype Arch = Arch(defines: set<Name>, undefines: set<Name>, evaluate: (Expr, set<Name>) -> Verdict)

  /** The header's own namespace, where absent means undefined. */
  predicate OwnNamespace(name: Name) {
    "__NR" <= name || "__SC_" <= name
  }

  /** Whether anything has an opinion about a symbol. */
  predicate IsKnown(arch: Arch, local: set<Name>, defined: set<Name>, name: Name) {
    name in local || name in defined || name in arch.undefines || OwnNamespace(name)
  }

  function Test(arch: Arch, local: set<Name>, defined: set<Name>, line: Line): Verdict
    requires line.Opens() || line.ElifLine?
  {
    match line
    case IfdefLine(negated, name) =>
      if IsKnown(arch, local, defined, name) then Known((name in defined) != negated) else Unknown
    case IfLine(e) => arch.evaluate(e, defined)
    case ElifLine(e) => arch.evaluate(e, defined)
  }

  /** Every name the header defines anywhere, whichever branch it is in. */
  function LocalNames(lines: seq<Line>): set<Name> {
    set i | 0 <= i < |lines| && lines[i].DefineLine? :: lines[i].name
  }

  datatype Outcome = Lines(out: seq<Line>) | Unsupported

  // ------------------------------------------------------------- the machine

  /** One open conditional: is its current branch taken, has one been. */
  datatype Frame = Frame(taken: bool, already: bool)

  datatype State = State(stack: seq<Frame>, defined: set<Name>, out: seq<Line>)

  datatype Stepped = Next(state: State) | Stuck

  predicate Live(stack: seq<Frame>) {
    forall i :: 0 <= i < |stack| ==> stack[i].taken
  }

  function Step(arch: Arch, local: set<Name>, s: State, line: Line): Stepped {
    var n := |s.stack|;
    match line
    case IfLine(_) => Open(arch, local, s, line)
    case IfdefLine(_, _) => Open(arch, local, s, line)
    case ElifLine(_) =>
      if n == 0 then Stuck
      else if !Live(s.stack[..n - 1]) || s.stack[n - 1].already then
        Next(s.(stack := s.stack[n - 1 := Frame(false, s.stack[n - 1].already)]))
      else (match Test(arch, local, s.defined, line)
            case Unknown => Stuck
            case Known(v) => Next(s.(stack := s.stack[n - 1 := Frame(v, v)])))
    case ElseLine =>
      if n == 0 then Stuck
      else Next(s.(stack := s.stack[n - 1 := Frame(Live(s.stack[..n - 1]) && !s.stack[n - 1].already, true)]))
    case EndifLine =>
      if n == 0 then Stuck else Next(s.(stack := s.stack[..n - 1]))
    case DefineLine(name, _) =>
      if Live(s.stack) then Next(s.(defined := s.defined + {name}, out := s.out + [line])) else Next(s)
    case TextLine(_) =>
      if Live(s.stack) then Next(s.(out := s.out + [line])) else Next(s)
  }

  function Open(arch: Arch, local: set<Name>, s: State, line: Line): Stepped
    requires line.Opens()
  {
    if !Live(s.stack) then Next(s.(stack := s.stack + [Frame(false, true)]))
    else (match Test(arch, local, s.defined, line)
          case Unknown => Stuck
          case Known(v) => Next(s.(stack := s.stack + [Frame(v, v)])))
  }

  function Run(arch: Arch, local: set<Name>, s: State, lines: seq<Line>): Stepped
    decreases |lines|
  {
    if lines == [] then Next(s)
    else match Step(arch, local, s, lines[0])
         case Stuck => Stuck
         case Next(s') => Run(arch, local, s', lines[1..])
  }

  function Finish(r: Stepped): Outcome {
    if r.Stuck? || r.state.stack != [] then Unsupported else Lines(r.state.out)
  }

  /** What the reader answers for a whole header. */
  function Machine(arch: Arch, lines: seq<Line>): Outcome {
    Finish(Run(arch, LocalNames(lines), State([], arch.defines, []), lines))
  }

  /** The reader as it is written: one pass, with a stack, a set and an output that
      are updated line by line. */
  method Resolve(arch: Arch, lines: seq<Line>) returns (r: Outcome)
    ensures r == Machine(arch, lines) && Faithful(arch, lines, r)
  {
    hide Faithful;
    MachineFaithful(arch, lines);
    var defined, out, stack := arch.defines, [], [];
    var local := LocalNames(lines);
    var i := 0;
    while i < |lines|
      invariant 0 <= i <= |lines|
      invariant Run(arch, local, State([], arch.defines, []), lines) ==
                  Run(arch, local, State(stack, defined, out), lines[i..])
    {
      var line, n := lines[i], |stack|;
      assert lines[i..][1..] == lines[i + 1..];
      i := i + 1;
      if line.Opens() {
        if !Live(stack) {
          stack := stack + [Frame(false, true)];
          continue;
        }
        var v := Test(arch, local, defined, line);
        if v.Unknown? {
          return Unsupported;
        }
        stack := stack + [Frame(v.value, v.value)];
      } else if line.ElifLine? {
        if n == 0 {
          return Unsupported;
        }
        var already := stack[n - 1].already;
        if Live(stack[..n - 1]) && !already {
          var v := Test(arch, local, defined, line);
          if v.Unknown? {
            return Unsupported;
          }
          stack := stack[n - 1 := Frame(v.value, v.value)];
        } else {
          stack := stack[n - 1 := Frame(false, already)];
        }
      } else if line.ElseLine? {
        if n == 0 {
          return Unsupported;
        }
        stack := stack[n - 1 := Frame(Live(stack[..n - 1]) && !stack[n - 1].already, true)];
      } else if line.EndifLine? {
        if n == 0 {
          return Unsupported;
        }
        stack := stack[..n - 1];
      } else if Live(stack) {
        if line.DefineLine? {
          defined := defined + {line.name};
        }
        out := out + [line];
      }
    }
    if stack != [] {
      return Unsupported;
    }
    return Lines(out);
  }

  // ------------------------------------------------- the structured meaning

  /** A header as nested groups.  A group is opened by a test; its further branches
      follow in order up to the endif. */
  datatype Block =
    | Nothing
    | Then(line: Line, rest: Block)
    | Group(test: Line, body: Block, more: Branches, rest: Block)

  datatype Branches =
    | Endif
    | Elif(test: Line, body: Block, more: Branches)
    | Else(body: Block, more: Branches)

  ghost predicate WellFormed(b: Block) {
    match b
    case Nothing => true
    case Then(line, rest) => line.Plain() && WellFormed(rest)
    case Group(test, body, more, rest) =>
      test.Opens() && WellFormed(body) && WellFormedBranches(more) && WellFormed(rest)
  }

  ghost predicate WellFormedBranches(m: Branches) {
    match m
    case Endif => true
    case Elif(test, body, more) => test.ElifLine? && WellFormed(body) && WellFormedBranches(more)
    case Else(body, more) => WellFormed(body) && WellFormedBranches(more)
  }

  ghost function Flatten(b: Block): seq<Line> {
    match b
    case Nothing => []
    case Then(line, rest) => [line] + Flatten(rest)
    case Group(test, body, more, rest) => [test] + Flatten(body) + FlattenBranches(more) + Flatten(rest)
  }

  ghost function FlattenBranches(m: Branches): seq<Line> {
    match m
    case Endif => [EndifLine]
    case Elif(test, body, more) => [test] + Flatten(body) + FlattenBranches(more)
    case Else(body, more) => [ElseLine] + Flatten(body) + FlattenBranches(more)
  }

  /** What a block means: the names defined after it and the lines it gives, or
      that a condition it has to decide is unknown. */
  datatype Meaning = Gives(defined: set<Name>, out: seq<Line>) | Undecided

  /** Whether a name can be decided where it is not defined: the header defines it somewhere, the architecture is
      known not to, or it is one of the names the header numbers its calls with. */
  ghost predicate Absent(arch: Arch, local: set<Name>, name: Name) {
    || name in local || name in arch.undefines
    || (|name| >= 4 && name[..4] == "__NR") || (|name| >= 5 && name[..5] == "__SC_")
  }

  /** What a condition says: an ifdef that its name is defined, an ifndef that it is not, and any other what the
      evaluator makes of its expression. */
  ghost function Holds(arch: Arch, local: set<Name>, d: set<Name>, test: Line): Verdict
    requires test.Opens() || test.ElifLine?
  {
    if !test.IfdefLine? then arch.evaluate(test.expr, d)
    else if test.name in d then Known(!test.negated)
    else if Absent(arch, local, test.name) then Known(test.negated)
    else Unknown
  }

  lemma TestHolds(arch: Arch, local: set<Name>, d: set<Name>, test: Line)
    requires test.Opens() || test.ElifLine?
    ensures Test(arch, local, d, test) == Holds(arch, local, d, test)
  {
  }

  /** The first true branch of each group, and only that one, is read. */
  ghost function Mean(arch: Arch, local: set<Name>, b: Block, d: set<Name>): Meaning
    requires WellFormed(b)
  {
    match b
    case Nothing => Gives(d, [])
    case Then(line, rest) =>
      Prepend([line], Mean(arch, local, rest, if line.DefineLine? then d + {line.name} else d))
    case Group(test, body, more, rest) =>
      match Holds(arch, local, d, test)
      case Unknown => Undecided
      case Known(v) =>
        match if v then Mean(arch, local, body, d) else MeanBranches(arch, local, more, d)
        case Undecided => Undecided
        case Gives(d1, o1) => Prepend(o1, Mean(arch, local, rest, d1))
  }

  /** The meaning of the branches left when none has been taken yet. */
  ghost function MeanBranches(arch: Arch, local: set<Name>, m: Branches, d: set<Name>): Meaning
    requires WellFormedBranches(m)
  {
    match m
    case Endif => Gives(d, [])
    case Elif(test, body, more) =>
      (match Holds(arch, local, d, test)
       case Unknown => Undecided
       case Known(v) => if v then Mean(arch, local, body, d) else MeanBranches(arch, local, more, d))
    case Else(body, _) => Mean(arch, local, body, d)
  }

  ghost function Prepend(o: seq<Line>, m: Meaning): Meaning {
    if m.Undecided? then m else Gives(m.defined, o + m.out)
  }

  // ------------------------------------------------- machine meets meaning

  /** Running on from a meaning. */
  ghost function Resume(arch: Arch, local: set<Name>, s: State, m: Meaning, tail: seq<Line>): Stepped {
    match m
    case Undecided => Stuck
    case Gives(d, o) => Run(arch, local, State(s.stack, d, s.out + o), tail)
  }

  lemma RunStep(arch: Arch, local: set<Name>, s: State, line: Line, tail: seq<Line>)
    ensures Run(arch, local, s, [line] + tail)
         == match Step(arch, local, s, line) case Stuck => Stuck case Next(s') => Run(arch, local, s', tail)
  {
    assert ([line] + tail)[1..] == tail;
  }

  lemma Dead(stack: seq<Frame>, f: Frame)
    ensures !Live(stack) || !f.taken ==> !Live(stack + [f])
    ensures Live(stack) && f.taken ==> Live(stack + [f])
    ensures (stack + [f])[..|stack|] == stack
  {
    assert (stack + [f])[|stack|] == f;
    if !Live(stack) {
      var i :| 0 <= i < |stack| && !stack[i].taken;
      assert (stack + [f])[i] == stack[i];
    }
  }

  /** In a branch that is not taken nothing happens but the nesting. */
  lemma {:induction false} SkipBlock(arch: Arch, local: set<Name>, s: State, b: Block, tail: seq<Line>)
    requires WellFormed(b) && !Live(s.stack)
    ensures Run(arch, local, s, Flatten(b) + tail) == Run(arch, local, s, tail)
    decreases b
  {
    hide Run, Live;
    match b
    case Nothing =>
      assert Flatten(b) + tail == tail;
    case Then(line, rest) =>
      assert Flatten(b) + tail == [line] + (Flatten(rest) + tail);
      RunStep(arch, local, s, line, Flatten(rest) + tail);
      SkipBlock(arch, local, s, rest, tail);
    case Group(test, body, more, rest) =>
      var after := Flatten(rest) + tail;
      var middle := FlattenBranches(more) + after;
      assert Flatten(b) + tail == [test] + (Flatten(body) + middle);
      RunStep(arch, local, s, test, Flatten(body) + middle);
      var s1 := s.(stack := s.stack + [Frame(false, true)]);
      Dead(s.stack, Frame(false, true));
      SkipBlock(arch, local, s1, body, middle);
      SkipBranches(arch, local, s, false, more, after);
      SkipBlock(arch, local, s, rest, tail);
  }

  /** Once a branch has been taken, or in a dead region, the rest of the group is
      passed over without being evaluated. */
  lemma {:induction false} SkipBranches(arch: Arch, local: set<Name>, s: State, taken: bool, m: Branches,
                                        tail: seq<Line>)
    requires WellFormedBranches(m)
    ensures Run(arch, local, s.(stack := s.stack + [Frame(taken, true)]), FlattenBranches(m) + tail) ==
              Run(arch, local, s, tail)
    decreases m
  {
    hide Run, Live;
    var s1 := s.(stack := s.stack + [Frame(taken, true)]);
    Dead(s.stack, Frame(taken, true));
    if m.Endif? {
      RunStep(arch, local, s1, EndifLine, tail);
    } else {
      var line, body, more := if m.Else? then ElseLine else m.test, m.body, m.more;
      var middle := FlattenBranches(more) + tail;
      assert FlattenBranches(m) + tail == [line] + (Flatten(body) + middle);
      RunStep(arch, local, s1, line, Flatten(body) + middle);
      var s2 := s.(stack := s.stack + [Frame(false, true)]);
      assert s1.stack[|s.stack| := Frame(false, true)] == s2.stack;
      Dead(s.stack, Frame(false, true));
      SkipBlock(arch, local, s2, body, middle);
      SkipBranches(arch, local, s, false, more, tail);
    }
  }

  /** In a live region the machine gives exactly what the block means. */
  lemma {:induction false} RunBlock(arch: Arch, local: set<Name>, s: State, b: Block, tail: seq<Line>)
    requires WellFormed(b) && Live(s.stack)
    ensures Run(arch, local, s, Flatten(b) + tail) == Resume(arch, local, s, Mean(arch, local, b, s.defined), tail)
    decreases b
  {
    hide Run, Live;
    match b
    case Nothing =>
      assert Flatten(b) + tail == tail && s.out + [] == s.out;
    case Then(line, rest) =>
      assert Flatten(b) + tail == [line] + (Flatten(rest) + tail);
      RunStep(arch, local, s, line, Flatten(rest) + tail);
      var s1 := Step(arch, local, s, line).state;
      RunBlock(arch, local, s1, rest, tail);
      Appended(s.out, [line], Mean(arch, local, rest, s1.defined));
    case Group(test, body, more, rest) =>
      RunGroup(arch, local, s, b, tail);
  }

  lemma {:induction false} RunGroup(arch: Arch, local: set<Name>, s: State, b: Block, tail: seq<Line>)
    requires WellFormed(b) && Live(s.stack) && b.Group?
    ensures Run(arch, local, s, Flatten(b) + tail) == Resume(arch, local, s, Mean(arch, local, b, s.defined), tail)
    decreases b, 0
  {
    hide Run, Live, Holds, Test;
    var Group(test, body, more, rest) := b;
    var after := Flatten(rest) + tail;
    var middle := FlattenBranches(more) + after;
    assert Flatten(b) + tail == [test] + (Flatten(body) + middle);
    RunStep(arch, local, s, test, Flatten(body) + middle);
    TestHolds(arch, local, s.defined, test);
    var verdict := Holds(arch, local, s.defined, test);
    if verdict.Known? {
      var v := verdict.value;
      var s1 := s.(stack := s.stack + [Frame(v, v)]);
      Dead(s.stack, Frame(v, v));
      var m := if v then Mean(arch, local, body, s.defined) else MeanBranches(arch, local, more, s.defined);
      if v {
        RunBlock(arch, local, s1, body, middle);
        if m.Gives? {
          SkipBranches(arch, local, State(s.stack, m.defined, s.out + m.out), true, more, after);
        }
      } else {
        SkipBlock(arch, local, s1, body, middle);
        RunBranches(arch, local, s, more, after);
      }
      if m.Gives? {
        var s2 := State(s.stack, m.defined, s.out + m.out);
        RunBlock(arch, local, s2, rest, tail);
        Appended(s.out, m.out, Mean(arch, local, rest, m.defined));
      }
    }
  }

  /** The branches left when none has been taken: tested in order, the first that
      holds is read. */
  lemma {:induction false} RunBranches(arch: Arch, local: set<Name>, s: State, m: Branches, tail: seq<Line>)
    requires WellFormedBranches(m) && Live(s.stack)
    ensures Run(arch, local, s.(stack := s.stack + [Frame(false, false)]), FlattenBranches(m) + tail)
         == Resume(arch, local, s, MeanBranches(arch, local, m, s.defined), tail)
    decreases m
  {
    hide Run, Live, Holds, Test;
    var s1 := s.(stack := s.stack + [Frame(false, false)]);
    Dead(s.stack, Frame(false, false));
    if m.Endif? {
      RunStep(arch, local, s1, EndifLine, tail);
      assert s.out + [] == s.out;
    } else {
      var line, body, more := if m.Else? then ElseLine else m.test, m.body, m.more;
      var middle := FlattenBranches(more) + tail;
      assert FlattenBranches(m) + tail == [line] + (Flatten(body) + middle);
      RunStep(arch, local, s1, line, Flatten(body) + middle);
      var verdict := if m.Else? then Known(true) else Holds(arch, local, s.defined, line);
      if !m.Else? {
        TestHolds(arch, local, s.defined, line);
      }
      if verdict.Known? {
        var v := verdict.value;
        var s2 := s.(stack := s.stack + [Frame(v, v)]);
        assert s1.stack[|s.stack| := Frame(v, v)] == s2.stack;
        Dead(s.stack, Frame(v, v));
        if v {
          RunBlock(arch, local, s2, body, middle);
          var r := Mean(arch, local, body, s.defined);
          if r.Gives? {
            SkipBranches(arch, local, State(s.stack, r.defined, s.out + r.out), true, more, tail);
          }
        } else {
          SkipBlock(arch, local, s2, body, middle);
          RunBranches(arch, local, s, more, tail);
        }
      }
    }
  }

  lemma Appended(out: seq<Line>, o: seq<Line>, m: Meaning)
    ensures m.Gives? ==> (out + o) + m.out == out + (o + m.out)
  {
  }

  // ----------------------------------------------------------------- nesting

  /** Every elif, else and endif has an open conditional, and all are closed. */
  ghost predicate Balanced(lines: seq<Line>, depth: nat)
    decreases |lines|
  {
    if lines == [] then depth == 0
    else if lines[0].Opens() then Balanced(lines[1..], depth + 1)
    else if lines[0].EndifLine? then depth > 0 && Balanced(lines[1..], depth - 1)
    else if lines[0].Continues() then depth > 0 && Balanced(lines[1..], depth)
    else Balanced(lines[1..], depth)
  }

  /** A header the machine accepts is balanced. */
  lemma {:induction false} AcceptedIsBalanced(arch: Arch, local: set<Name>, s: State, lines: seq<Line>)
    ensures var r := Run(arch, local, s, lines); r.Next? && r.state.stack == [] ==> Balanced(lines, |s.stack|)
    decreases |lines|
  {
    if lines != [] {
      var r := Step(arch, local, s, lines[0]);
      if r.Next? {
        AcceptedIsBalanced(arch, local, r.state, lines[1..]);
      }
    }
  }

  datatype Parsed<T> = Parsed(value: T, rest: seq<Line>) | Unclosed

  /** As much of a block as there is before the group around it goes on. */
  function ParseBlock(s: seq<Line>): (r: Parsed<Block>)
    ensures r.Parsed? ==> |r.rest| <= |s| && (r.rest != [] ==> r.rest[0].Continues())
    decreases |s|, 0
  {
    if s == [] || s[0].Continues() then Parsed(Nothing, s)
    else if s[0].Opens() then
      (match ParseBlock(s[1..])
       case Unclosed => Unclosed
       case Parsed(body, r1) =>
         match ParseBranches(r1)
         case Unclosed => Unclosed
         case Parsed(more, r2) =>
           match ParseBlock(r2)
           case Unclosed => Unclosed
           case Parsed(rest, r3) => Parsed(Group(s[0], body, more, rest), r3))
    else
      match ParseBlock(s[1..])
      case Unclosed => Unclosed
      case Parsed(rest, r) => Parsed(Then(s[0], rest), r)
  }

  function ParseBranches(s: seq<Line>): (r: Parsed<Branches>)
    requires s != [] ==> s[0].Continues()
    ensures r.Parsed? ==> |r.rest| < |s|
    decreases |s|, 1
  {
    if s == [] then Unclosed
    else if s[0].EndifLine? then Parsed(Endif, s[1..])
    else
      match ParseBlock(s[1..])
      case Unclosed => Unclosed
      case Parsed(body, r1) =>
        match ParseBranches(r1)
        case Unclosed => Unclosed
        case Parsed(more, r2) => Parsed(if s[0].ElseLine? then Else(body, more) else Elif(s[0], body, more), r2)
  }

  /** A block is parsed off a prefix of the lines, which leaves balanced what was; otherwise they are not balanced. */
  ghost predicate BlockParsed(s: seq<Line>, depth: nat) {
    var r := ParseBlock(s);
    if r.Unclosed? then !Balanced(s, depth)
    else WellFormed(r.value) && Flatten(r.value) + r.rest == s && Balanced(s, depth) == Balanced(r.rest, depth)
  }

  ghost predicate BranchesParsed(s: seq<Line>, depth: nat)
    requires s != [] ==> s[0].Continues()
  {
    var r := ParseBranches(s);
    if r.Unclosed? then !Balanced(s, depth + 1)
    else
      && WellFormedBranches(r.value) && FlattenBranches(r.value) + r.rest == s
      && Balanced(s, depth + 1) == Balanced(r.rest, depth)
  }

  lemma {:induction false} ParseBlockIs(s: seq<Line>, depth: nat)
    ensures BlockParsed(s, depth)
    decreases |s|, 0
  {
    if s != [] && !s[0].Continues() {
      if s[0].Opens() {
        hide BlockParsed, BranchesParsed;
        ParseBlockIs(s[1..], depth + 1);
        var p1 := ParseBlock(s[1..]);
        if p1.Parsed? {
          ParseBranchesIs(p1.rest, depth);
          var p2 := ParseBranches(p1.rest);
          if p2.Parsed? {
            ParseBlockIs(p2.rest, depth);
          }
        }
        GroupParsed(s, depth);
      } else {
        ParseBlockIs(s[1..], depth);
        var p := ParseBlock(s[1..]);
        assert p.Parsed? ==> [s[0]] + (Flatten(p.value) + p.rest) == s;
      }
    }
  }

  lemma GroupParsed(s: seq<Line>, depth: nat)
    requires s != [] && s[0].Opens() && !s[0].Continues() && BlockParsed(s[1..], depth + 1)
    requires var p1 := ParseBlock(s[1..]);
             p1.Parsed? ==>
               && BranchesParsed(p1.rest, depth)
               && var p2 := ParseBranches(p1.rest); p2.Parsed? ==> BlockParsed(p2.rest, depth)
    ensures BlockParsed(s, depth)
  {
    var p1 := ParseBlock(s[1..]);
    if p1.Parsed? {
      var p2 := ParseBranches(p1.rest);
      if p2.Parsed? {
        var p3 := ParseBlock(p2.rest);
        if p3.Parsed? {
          Regroup(s, Flatten(p1.value), FlattenBranches(p2.value), Flatten(p3.value), p1.rest, p2.rest, p3.rest);
        }
      }
    }
  }

  lemma {:induction false} ParseBranchesIs(s: seq<Line>, depth: nat)
    requires s != [] ==> s[0].Continues()
    ensures BranchesParsed(s, depth)
    decreases |s|, 1
  {
    if s != [] && !s[0].EndifLine? {
      ParseBlockIs(s[1..], depth + 1);
      var p1 := ParseBlock(s[1..]);
      if p1.Parsed? {
        ParseBranchesIs(p1.rest, depth);
        var p2 := ParseBranches(p1.rest);
        if p2.Parsed? {
          Regroup(s, Flatten(p1.value), FlattenBranches(p2.value), [], p1.rest, p2.rest, p2.rest);
        }
      }
    } else if s != [] {
      assert [EndifLine] + s[1..] == s;
    }
  }

  lemma Regroup(s: seq<Line>, a: seq<Line>, b: seq<Line>, c: seq<Line>, r1: seq<Line>, r2: seq<Line>, r3: seq<Line>)
    requires s != [] && a + r1 == s[1..] && b + r2 == r1 && c + r3 == r2
    ensures [s[0]] + a + b + c + r3 == s && [s[0]] + a + b + r2 == s
  {
    assert s == [s[0]] + s[1..];
  }

  /** A block's lines are balanced wherever they stand. */
  lemma BalancedBlock(b: Block, tail: seq<Line>, depth: nat)
    requires WellFormed(b)
    ensures Balanced(Flatten(b) + tail, depth) == Balanced(tail, depth)
    decreases b
  {
    match b
    case Nothing =>
      assert Flatten(b) + tail == tail;
    case Then(line, rest) =>
      assert (Flatten(b) + tail)[1..] == Flatten(rest) + tail;
      BalancedBlock(rest, tail, depth);
    case Group(test, body, more, rest) =>
      var after := Flatten(rest) + tail;
      assert (Flatten(b) + tail)[1..] == Flatten(body) + (FlattenBranches(more) + after);
      BalancedBlock(body, FlattenBranches(more) + after, depth + 1);
      BalancedBranches(more, after, depth);
      BalancedBlock(rest, tail, depth);
  }

  lemma BalancedBranches(m: Branches, tail: seq<Line>, depth: nat)
    requires WellFormedBranches(m)
    ensures Balanced(FlattenBranches(m) + tail, depth + 1) == Balanced(tail, depth)
    decreases m
  {
    match m
    case Endif =>
      assert (FlattenBranches(m) + tail)[1..] == tail;
    case Elif(test, body, more) =>
      assert (FlattenBranches(m) + tail)[1..] == Flatten(body) + (FlattenBranches(more) + tail);
      BalancedBlock(body, FlattenBranches(more) + tail, depth + 1);
      BalancedBranches(more, tail, depth);
    case Else(body, more) =>
      assert (FlattenBranches(m) + tail)[1..] == Flatten(body) + (FlattenBranches(more) + tail);
      BalancedBlock(body, FlattenBranches(more) + tail, depth + 1);
      BalancedBranches(more, tail, depth);
  }

  /** Balanced headers are exactly those that are the lines of some block. */
  lemma BalancedIsNested(lines: seq<Line>) returns (b: Block)
    ensures Balanced(lines, 0) ==> WellFormed(b) && Flatten(b) == lines
    ensures forall b' :: WellFormed(b') && Flatten(b') == lines ==> Balanced(lines, 0)
  {
    ParseBlockIs(lines, 0);
    var p := ParseBlock(lines);
    b := if p.Parsed? then p.value else Nothing;
    if Balanced(lines, 0) {
      assert p.Parsed? && p.rest == [];
      assert Flatten(b) + [] == Flatten(b);
    }
    forall b' | WellFormed(b') && Flatten(b') == lines
      ensures Balanced(lines, 0)
    {
      BalancedBlock(b', [], 0);
      assert lines + [] == lines;
    }
  }

  /** The block defines name n somewhere, in whichever branch. */
  ghost predicate Defines(b: Block, n: Name) {
    match b
    case Nothing => false
    case Then(line, rest) => (line.DefineLine? && line.name == n) || Defines(rest, n)
    case Group(_, body, more, rest) => Defines(body, n) || DefinesIn(more, n) || Defines(rest, n)
  }

  ghost predicate DefinesIn(m: Branches, n: Name) {
    match m
    case Endif => false
    case Elif(_, body, more) => Defines(body, n) || DefinesIn(more, n)
    case Else(body, more) => Defines(body, n) || DefinesIn(more, n)
  }

  lemma LocalSplit(a: seq<Line>, b: seq<Line>)
    ensures LocalNames(a + b) == LocalNames(a) + LocalNames(b)
  {
    forall n | n in LocalNames(a) + LocalNames(b)
      ensures n in LocalNames(a + b)
    {
      if n in LocalNames(a) {
        var i :| 0 <= i < |a| && a[i].DefineLine? && a[i].name == n;
        assert (a + b)[i] == a[i];
      } else {
        var i :| 0 <= i < |b| && b[i].DefineLine? && b[i].name == n;
        assert (a + b)[|a| + i] == b[i];
      }
    }
  }

  lemma LocalOne(line: Line)
    ensures LocalNames([line]) == if line.DefineLine? then {line.name} else {}
  {
    assert line.DefineLine? ==> [line][0].DefineLine? && line.name in LocalNames([line]);
  }

  /** The names found by looking at every line are those the block defines. */
  lemma {:induction false} LocalIs(b: Block, n: Name)
    requires WellFormed(b)
    ensures n in LocalNames(Flatten(b)) <==> Defines(b, n)
    decreases b
  {
    match b
    case Nothing =>
    case Then(line, rest) =>
      LocalSplit([line], Flatten(rest));
      LocalOne(line);
      LocalIs(rest, n);
    case Group(test, body, more, rest) =>
      LocalSplit([test] + Flatten(body) + FlattenBranches(more), Flatten(rest));
      LocalSplit([test] + Flatten(body), FlattenBranches(more));
      LocalSplit([test], Flatten(body));
      LocalOne(test);
      LocalIs(body, n);
      LocalIn(more, n);
      LocalIs(rest, n);
  }

  lemma {:induction false} LocalIn(m: Branches, n: Name)
    requires WellFormedBranches(m)
    ensures n in LocalNames(FlattenBranches(m)) <==> DefinesIn(m, n)
    decreases m
  {
    if m.Endif? {
      LocalOne(EndifLine);
    } else {
      var line := if m.Else? then ElseLine else m.test;
      LocalSplit([line] + Flatten(m.body), FlattenBranches(m.more));
      LocalSplit([line], Flatten(m.body));
      LocalOne(line);
      LocalIs(m.body, n);
      LocalIn(m.more, n);
    }
  }

  /** The header reader is exact.  For the lines of any block it gives the lines the
      block means, and refuses exactly when the meaning meets an unknown condition. */
  lemma ResolveIsMeaning(arch: Arch, b: Block, local: set<Name>)
    requires WellFormed(b) && forall n :: n in local <==> Defines(b, n)
    ensures Machine(arch, Flatten(b)) ==
            match Mean(arch, local, b, arch.defines)
            case Undecided => Unsupported
            case Gives(_, out) => Lines(out)
  {
    var s := State([], arch.defines, []);
    forall n
      ensures n in LocalNames(Flatten(b)) <==> n in local
    {
      LocalIs(b, n);
    }
    assert LocalNames(Flatten(b)) == local;
    hide LocalNames, Defines;
    RunBlock(arch, local, s, b, []);
    assert Flatten(b) + [] == Flatten(b);
    var m := Mean(arch, local, b, arch.defines);
    assert m.Gives? ==> [] + m.out == m.out;
  }

  /** A group of lines that begins with an ifdef or ifndef, wherever it is read: where the name is defined, or nothing
      defined it that could have, its body is read exactly if the name is defined and the line is an ifdef, or is
      not and it is an ifndef, and its further branches otherwise; and where nobody can say, the header is
      refused. */
  lemma IfdefExactly(arch: Arch, local: set<Name>, s: State, negated: bool, name: Name, body: Block, more: Branches,
                     tail: seq<Line>)
    requires WellFormed(body) && WellFormedBranches(more) && Live(s.stack)
    ensures var r := Run(arch, local, s, [IfdefLine(negated, name)] + Flatten(body) + FlattenBranches(more) + tail);
            if name in s.defined || Absent(arch, local, name) then
              if (name in s.defined) != negated then
                r == Resume(arch, local, s, Mean(arch, local, body, s.defined), tail)
              else r == Resume(arch, local, s, MeanBranches(arch, local, more, s.defined), tail)
            else r == Stuck
  {
    var b := Group(IfdefLine(negated, name), body, more, Nothing);
    assert Flatten(b) + tail == [IfdefLine(negated, name)] + Flatten(body) + FlattenBranches(more) + tail;
    RunBlock(arch, local, s, b, tail);
    hide Run;
    var m := if (name in s.defined) != negated then Mean(arch, local, body, s.defined)
             else MeanBranches(arch, local, more, s.defined);
    assert m.Gives? ==> m.out + [] == m.out;
  }

  /** Every other header is refused. */
  lemma UnbalancedIsRefused(arch: Arch, lines: seq<Line>)
    requires !Balanced(lines, 0)
    ensures Machine(arch, lines) == Unsupported
  {
    AcceptedIsBalanced(arch, LocalNames(lines), State([], arch.defines, []), lines);
  }

  /** r is what a header means: nothing if its lines do not nest, and otherwise what they mean as a block. */
  ghost predicate Faithful(arch: Arch, lines: seq<Line>, r: Outcome) {
    && (!Balanced(lines, 0) ==> r == Unsupported)
    && forall b: Block, local: set<Name> :: WellFormed(b) && Flatten(b) == lines && Owns(local, b) ==>
         r == Meant(Mean(arch, local, b, arch.defines))
  }

  /** The names that b defines in any branch. */
  ghost predicate Owns(local: set<Name>, b: Block) {
    forall n :: n in local <==> Defines(b, n)
  }

  ghost function Meant(m: Meaning): Outcome {
    if m.Undecided? then Unsupported else Lines(m.out)
  }

  lemma MachineFaithful(arch: Arch, lines: seq<Line>)
    ensures Faithful(arch, lines, Machine(arch, lines))
  {
    hide Machine, Balanced;
    if !Balanced(lines, 0) {
      UnbalancedIsRefused(arch, lines);
    }
    forall b: Block, local: set<Name> | WellFormed(b) && Flatten(b) == lines && Owns(local, b)
      ensures Machine(arch, lines) == Meant(Mean(arch, local, b, arch.defines))
    {
      ResolveIsMeaning(arch, b, local);
    }
  }
}
