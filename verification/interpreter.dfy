/** The program interpreter (`forward` in kopl.py): dependency inference over the
    function names, then a left-to-right run in which each step reads the results of
    the steps it depends on and appends its own result to the memory. */
module Interpreter {
  import opened Results
  import opened Values
  import opened KnowledgeBase
  import opened Registers
  import Retrieval
  import Filters
  import Queries
  import Selection

  /** A memory cell: what a step returned. */
  datatype Register =
    | Nothing                          // `<START>`'s `None`
    | EntitySet(entities: Entities)    // an `(entity_ids, facts)` tuple
    | Strings(items: seq<string>)      // names or relation labels
    | Text(text: string)               // a name or a verification answer
    | Number(n: int)                   // a count
    | ValueList(values: seq<Value>)    // attribute or qualifier values

  // ---------------------------------------------------------------------------
  // Dependency inference

  /** How a function name shapes the dependencies: markers and retrievals take no
      input, retrievals also open a branch, joins close the latest branch against the
      previous step, and everything else chains onto the previous step. */
  datatype Shape = Marker | Opens | Joins | Chains

  function ShapeOf(p: string): Shape {
    if p in {"<START>", "<END>", "<PAD>"} then Marker
    else if p in {"FindAll", "Find"} then Opens
    else if p in {"And", "Or", "SelectBetween", "QueryRelation", "QueryRelationQualifier"} then Joins
    else Chains
  }

  /** Branches opened minus branches closed over a program prefix. */
  function Balance(prog: seq<string>): int {
    if |prog| == 0 then 0
    else
      var n := |prog| - 1;
      Balance(prog[..n]) + (match ShapeOf(prog[n]) case Opens => 1 case Joins => -1 case _ => 0)
  }

  /** The dependency list of step `i` has the shape its name calls for; a join reads the
      step just before some retrieval that precedes it, and the previous step. */
  predicate DepsFit(prog: seq<string>, i: nat, d: seq<int>)
    requires i < |prog|
  {
    match ShapeOf(prog[i])
    case Marker => d == []
    case Opens => d == []
    case Chains => d == [i - 1]
    case Joins => |d| == 2 && d[1] == i - 1 && 0 <= d[0] + 1 < i && ShapeOf(prog[d[0] + 1]) == Opens
  }

  /** The inference as a fold over the program: the dependency lists and the branch stack
      after each prefix. Popping an empty stack is `IndexError`. */
  function Infer(prog: seq<string>): Result<(seq<seq<int>>, seq<int>)> {
    if |prog| == 0 then Ok(([], []))
    else InferStep(Infer(prog[..|prog| - 1]), prog[|prog| - 1], |prog| - 1)
  }

  /** On success, one dependency list per step and one stack entry per open branch. */
  lemma {:induction false} InferLengths(prog: seq<string>)
    ensures Infer(prog).Err? ==> Infer(prog).error == IndexOutOfRange
    ensures Infer(prog).Ok? ==> |Infer(prog).value.0| == |prog| && |Infer(prog).value.1| == Balance(prog)
  {
    if |prog| > 0 {
      InferLengths(prog[..|prog| - 1]);
    }
  }

  /** The inference fails exactly when some join finds no open branch, counting the
      retrievals and joins before it. */
  lemma {:induction false} InferSucceeds(prog: seq<string>)
    ensures Infer(prog).Ok? <==> forall k :: 0 <= k < |prog| && ShapeOf(prog[k]) == Joins ==> Balance(prog[..k]) > 0
  {
    if |prog| > 0 {
      var n := |prog| - 1;
      var prefix := prog[..n];
      InferSucceeds(prefix);
      InferLengths(prefix);
      assert forall k :: 0 <= k <= n ==> prefix[..k] == prog[..k];
      assert forall k :: 0 <= k < n ==> prefix[k] == prog[k];
    }
  }

  /** On success the stack holds, for each open branch, the step just before its
      retrieval. */
  lemma {:induction false} InferStackFits(prog: seq<string>)
    ensures Infer(prog).Ok? ==> forall x :: x in Infer(prog).value.1 ==> 0 <= x + 1 < |prog| && ShapeOf(prog[x + 1]) == Opens
  {
    if |prog| > 0 {
      var n := |prog| - 1;
      var prefix := prog[..n];
      InferStackFits(prefix);
      var prev := Infer(prefix);
      if prev.Ok? && Infer(prog).Ok? {
        var stack := prev.value.1;
        var st := Infer(prog).value.1;
        forall x | x in st ensures 0 <= x + 1 < |prog| && ShapeOf(prog[x + 1]) == Opens {
          if x in stack {
            assert prefix[x + 1] == prog[x + 1];
          } else {
            assert ShapeOf(prog[n]) == Opens && x == n - 1;
          }
        }
      }
    }
  }

  /** On success every step's dependencies fit its shape. */
  lemma {:induction false} InferFits(prog: seq<string>)
    ensures Infer(prog).Ok? ==> |Infer(prog).value.0| == |prog|
    ensures Infer(prog).Ok? ==> forall i :: 0 <= i < |prog| ==> DepsFit(prog, i, Infer(prog).value.0[i])
  {
    InferLengths(prog);
    if |prog| > 0 {
      var n := |prog| - 1;
      var prefix := prog[..n];
      InferFits(prefix);
      InferStackFits(prefix);
      assert forall k :: 0 <= k < n ==> prefix[k] == prog[k];
      var prev := Infer(prefix);
      if prev.Ok? {
        var (deps, stack) := prev.value;
        assert forall i :: 0 <= i < n ==> DepsFit(prefix, i, deps[i]) ==> DepsFit(prog, i, deps[i]);
        if ShapeOf(prog[n]) == Joins && |stack| > 0 {
          assert stack[|stack| - 1] in stack;
        }
      }
    }
  }

  /** Once a prefix fails, the whole program fails. */
  lemma {:induction false} InferFailureStays(prog: seq<string>, k: nat)
    requires k <= |prog| && Infer(prog[..k]).Err?
    ensures Infer(prog).Err?
    decreases |prog| - k
  {
    if k == |prog| {
      assert prog[..k] == prog;
    } else {
      InferUnfold(prog, k + 1);
      InferFailureStays(prog, k + 1);
    }
  }

  /** One step of the inference: the dependency list of step `n` and the stack after it. */
  function InferStep(prev: Result<(seq<seq<int>>, seq<int>)>, p: string, n: int): Result<(seq<seq<int>>, seq<int>)> {
    if prev.Err? then Err(IndexOutOfRange)
    else
      var (deps, stack) := prev.value;
      match ShapeOf(p)
      case Marker => Ok((deps + [[]], stack))
      case Opens => Ok((deps + [[]], stack + [n - 1]))
      case Chains => Ok((deps + [[n - 1]], stack))
      case Joins =>
        if |stack| == 0 then Err(IndexOutOfRange)
        else Ok((deps + [[stack[|stack| - 1], n - 1]], stack[..|stack| - 1]))
  }

  lemma InferUnfold(prog: seq<string>, k: nat)
    requires 0 < k <= |prog|
    ensures Infer(prog[..k]) == InferStep(Infer(prog[..k - 1]), prog[k - 1], k - 1)
  {
    assert prog[..k][..k - 1] == prog[..k - 1];
  }

  /** The inference loop as `forward` writes it, with a mutable branch stack. */
  method Dependencies(prog: seq<string>) returns (r: Result<seq<seq<int>>>)
    ensures r.Ok? <==> Infer(prog).Ok?
    ensures r.Err? ==> r.error == IndexOutOfRange
    ensures r.Ok? ==> r.value == Infer(prog).value.0
  {
    var deps: seq<seq<int>> := [];
    var stack: seq<int> := [];
    for i := 0 to |prog|
      invariant Infer(prog[..i]).Ok?
      invariant Infer(prog[..i]).value == (deps, stack)
    {
      assert prog[..i + 1][..i] == prog[..i];
      var p := prog[i];
      if p in {"<START>", "<END>", "<PAD>"} {
        deps := deps + [[]];
      } else if p in {"FindAll", "Find"} {
        deps := deps + [[]];
        stack := stack + [i - 1];
      } else if p in {"And", "Or", "SelectBetween", "QueryRelation", "QueryRelationQualifier"} {
        if |stack| == 0 {
          InferUnfold(prog, i + 1);
          InferFailureStays(prog, i + 1);
          return Err(IndexOutOfRange);
        }
        deps := deps + [[stack[|stack| - 1], i - 1]];
        stack := stack[..|stack| - 1];
      } else {
        deps := deps + [[i - 1]];
      }
    }
    assert prog[..|prog|] == prog;
    return Ok(deps);
  }

  // ---------------------------------------------------------------------------
  // Dispatch

  /** The operations `getattr` can find on the engine: one constructor per method. */
  datatype Op =
    | FindAll | Find | FilterConcept
    | FilterStr | FilterNum | FilterYear | FilterDate
    | QFilterStr | QFilterNum | QFilterYear | QFilterDate
    | Relate | And | Or | QueryName | Count | SelectBetween | SelectAmong
    | QueryAttr | QueryAttrUnderCondition | QueryAttrQualifier
    | VerifyStr | VerifyNum | VerifyYear | VerifyDate
    | QueryRelation | QueryRelationQualifier

  /** The method name of each operation. */
  function OpName(op: Op): string {
    match op
    case FindAll => "FindAll"
    case Find => "Find"
    case FilterConcept => "FilterConcept"
    case FilterStr => "FilterStr"
    case FilterNum => "FilterNum"
    case FilterYear => "FilterYear"
    case FilterDate => "FilterDate"
    case QFilterStr => "QFilterStr"
    case QFilterNum => "QFilterNum"
    case QFilterYear => "QFilterYear"
    case QFilterDate => "QFilterDate"
    case Relate => "Relate"
    case And => "And"
    case Or => "Or"
    case QueryName => "QueryName"
    case Count => "Count"
    case SelectBetween => "SelectBetween"
    case SelectAmong => "SelectAmong"
    case QueryAttr => "QueryAttr"
    case QueryAttrUnderCondition => "QueryAttrUnderCondition"
    case QueryAttrQualifier => "QueryAttrQualifier"
    case VerifyStr => "VerifyStr"
    case VerifyNum => "VerifyNum"
    case VerifyYear => "VerifyYear"
    case VerifyDate => "VerifyDate"
    case QueryRelation => "QueryRelation"
    case QueryRelationQualifier => "QueryRelationQualifier"
  }

  /** The operation a name would select, were it an operation's name: the names are
      told apart by their leading letters first, then in full. */
  function Candidate(name: string): Op {
    if |name| < 2 then FindAll
    else match name[0]
      case 'A' => And
      case 'C' => Count
      case 'O' => Or
      case 'R' => Relate
      case 'S' => if name == "SelectBetween" then SelectBetween else SelectAmong
      case 'V' =>
        if name == "VerifyStr" then VerifyStr
        else if name == "VerifyNum" then VerifyNum
        else if name == "VerifyYear" then VerifyYear
        else VerifyDate
      case 'F' =>
        if name == "FindAll" then FindAll
        else if name == "Find" then Find
        else if name == "FilterConcept" then FilterConcept
        else if name == "FilterStr" then FilterStr
        else if name == "FilterNum" then FilterNum
        else if name == "FilterYear" then FilterYear
        else FilterDate
      case _ =>
        if name[1] == 'F' then
          if name == "QFilterStr" then QFilterStr
          else if name == "QFilterNum" then QFilterNum
          else if name == "QFilterYear" then QFilterYear
          else QFilterDate
        else if name == "QueryName" then QueryName
        else if name == "QueryAttr" then QueryAttr
        else if name == "QueryAttrUnderCondition" then QueryAttrUnderCondition
        else if name == "QueryAttrQualifier" then QueryAttrQualifier
        else if name == "QueryRelation" then QueryRelation
        else QueryRelationQualifier
  }

  /** `getattr(self, p)`: the operation a name denotes, if any. Only a candidate whose own
      name is exactly `p` is found. */
  function Lookup(name: string): (r: Option<Op>)
    ensures r.Some? ==> OpName(r.value) == name
  {
    var op := Candidate(name);
    if OpName(op) == name then Some(op) else None
  }

  /** The operations whose names start with `F`. */
  lemma LookupFindsF(op: Op)
    requires op in {FindAll, Find, FilterConcept, FilterStr, FilterNum, FilterYear, FilterDate}
    ensures Lookup(OpName(op)) == Some(op)
  {
    match op
    case FindAll =>
    case Find =>
    case FilterConcept =>
    case FilterStr =>
    case FilterNum =>
    case FilterYear =>
    case FilterDate =>
    case _ =>
  }

  /** The operations whose names start with `QF`. */
  lemma LookupFindsQFilter(op: Op)
    requires op in {QFilterStr, QFilterNum, QFilterYear, QFilterDate}
    ensures Lookup(OpName(op)) == Some(op)
  {
    match op
    case QFilterStr =>
    case QFilterNum =>
    case QFilterYear =>
    case QFilterDate =>
    case _ =>
  }

  /** The operations whose names start with `Query`. */
  lemma LookupFindsQuery(op: Op)
    requires op in {QueryName, QueryAttr, QueryAttrUnderCondition, QueryAttrQualifier, QueryRelation, QueryRelationQualifier}
    ensures Lookup(OpName(op)) == Some(op)
  {
    match op
    case QueryName =>
    case QueryAttr =>
    case QueryAttrUnderCondition =>
    case QueryAttrQualifier =>
    case QueryRelation =>
    case QueryRelationQualifier =>
    case _ =>
  }

  /** The operations with the remaining initials. */
  lemma LookupFindsRest(op: Op)
    requires op in {And, Count, Or, Relate, SelectBetween, SelectAmong, VerifyStr, VerifyNum, VerifyYear, VerifyDate}
    ensures Lookup(OpName(op)) == Some(op)
  {
    match op
    case And =>
    case Count =>
    case Or =>
    case Relate =>
    case SelectBetween =>
    case SelectAmong =>
    case VerifyStr =>
    case VerifyNum =>
    case VerifyYear =>
    case VerifyDate =>
    case _ =>
  }

  /** Every operation is found under its own name. */
  lemma LookupFinds(op: Op)
    ensures Lookup(OpName(op)) == Some(op)
  {
    if op in {FindAll, Find, FilterConcept, FilterStr, FilterNum, FilterYear, FilterDate} {
      LookupFindsF(op);
    } else if op in {QFilterStr, QFilterNum, QFilterYear, QFilterDate} {
      LookupFindsQFilter(op);
    } else if op in {QueryName, QueryAttr, QueryAttrUnderCondition, QueryAttrQualifier, QueryRelation, QueryRelationQualifier} {
      LookupFindsQuery(op);
    } else {
      LookupFindsRest(op);
    }
  }

  /** A name is found as nothing exactly when it is no operation's name. */
  lemma LookupExact(name: string)
    ensures Lookup(name).None? <==> forall op :: OpName(op) != name
  {
    forall op | OpName(op) == name ensures Lookup(name).Some? {
      LookupFinds(op);
    }
  }

  /** The string arguments each operation takes after its register inputs. */
  function StringArity(op: Op): nat {
    match op
    case FindAll | And | Or | QueryName | Count | QueryRelation => 0
    case Find | FilterConcept | QueryAttr | VerifyStr => 1
    case FilterStr | QFilterStr | Relate | SelectBetween | SelectAmong | VerifyNum | VerifyYear | VerifyDate
       | QueryRelationQualifier => 2
    case FilterNum | FilterYear | FilterDate | QFilterNum | QFilterYear | QFilterDate
       | QueryAttrUnderCondition | QueryAttrQualifier => 3
  }

  /** The register inputs each operation takes: none for a retrieval, two for a join. */
  function RegisterArity(op: Op): nat {
    match op
    case FindAll | Find => 0
    case And | Or | SelectBetween | QueryRelation | QueryRelationQualifier => 2
    case _ => 1
  }

  /** The inference gives each operation exactly as many dependencies as it takes
      registers, so a step never fails for a wrong register count. */
  lemma ShapeFitsArity(op: Op)
    ensures RegisterArity(op) == match ShapeOf(OpName(op)) case Joins => 2 case Chains => 1 case _ => 0
    ensures ShapeOf(OpName(op)) != Marker
  {
  }

  function AsEntities(reg: Register): (r: Result<Entities>)
    ensures r.Ok? <==> reg.EntitySet?
    ensures r.Ok? ==> r.value == reg.entities
  {
    if reg.EntitySet? then Ok(reg.entities) else Err(WrongRegisterKind)
  }

  function AsValues(reg: Register): (r: Result<seq<Value>>)
    ensures r.Ok? <==> reg.ValueList?
    ensures r.Ok? ==> r.value == reg.values
  {
    if reg.ValueList? then Ok(reg.values) else Err(WrongRegisterKind)
  }

  /** `getattr(self, p)(*fun_args, *inp)`: an unknown name fails before anything else, a
      wrong argument count next, and an input of the wrong kind inside the operation. */
  function Apply(kb: KB, name: string, args: seq<Register>, inp: seq<string>): (r: Result<Register>)
    requires Valid(kb)
    ensures Lookup(name).None? ==> r == Err(UnknownOperation)
    ensures Lookup(name).Some? && (|inp| != StringArity(Lookup(name).value) || |args| != RegisterArity(Lookup(name).value)) ==>
      r == Err(ArityMismatch)
  {
    match Lookup(name)
    case None => Err(UnknownOperation)
    case Some(op) =>
      if |inp| != StringArity(op) || |args| != RegisterArity(op) then Err(ArityMismatch)
      else Run(kb, op, args, inp)
  }

  /** The operation bodies, each on its registers and string arguments: the register
      inputs are unpacked by kind, and an input of the wrong kind fails. */
  function Run(kb: KB, op: Op, args: seq<Register>, inp: seq<string>): Result<Register>
    requires Valid(kb)
    requires |inp| == StringArity(op) && |args| == RegisterArity(op)
  {
    match op
    case FindAll => Ok(EntitySet(Retrieval.FindAll(kb)))
    case Find => Ok(EntitySet(Retrieval.Find(kb, inp[0])))
    case And | Or | SelectBetween | QueryRelation | QueryRelationQualifier =>
      var l :- AsEntities(args[0]); var r :- AsEntities(args[1]); RunOnPair(kb, op, l, r, inp)
    case VerifyStr | VerifyNum | VerifyYear | VerifyDate =>
      var vs :- AsValues(args[0]); RunOnValues(kb, op, vs, inp)
    case _ => var e :- AsEntities(args[0]); RunOnEntities(kb, op, e, inp)
  }

  /** The operations that read two entity sets. */
  function RunOnPair(kb: KB, op: Op, l: Entities, r: Entities, inp: seq<string>): Result<Register>
    requires Valid(kb)
    requires (op.And? || op.Or? || op.SelectBetween? || op.QueryRelation? || op.QueryRelationQualifier?)
    requires |inp| == StringArity(op)
  {
    match op
    case And => Ok(EntitySet(Retrieval.And(l, r)))
    case Or => Ok(EntitySet(Retrieval.Or(l, r)))
    case SelectBetween => var x :- Selection.SelectBetween(kb, l, r, inp[0], inp[1]); Ok(Text(x))
    case QueryRelation => Ok(Strings(Queries.QueryRelation(kb, l, r)))
    case QueryRelationQualifier => Ok(ValueList(Queries.QueryRelationQualifier(kb, l, r, inp[0], inp[1])))
  }

  /** The operations that read a list of values. */
  function RunOnValues(kb: KB, op: Op, vs: seq<Value>, inp: seq<string>): Result<Register>
    requires Valid(kb)
    requires (op.VerifyStr? || op.VerifyNum? || op.VerifyYear? || op.VerifyDate?)
    requires |inp| == StringArity(op)
  {
    match op
    case VerifyStr => var x :- Queries.VerifyStr(kb, vs, inp[0]); Ok(Text(x))
    case VerifyNum => var x :- Queries.VerifyNum(kb, vs, inp[0], inp[1]); Ok(Text(x))
    case VerifyYear => var x :- Queries.VerifyYear(kb, vs, inp[0], inp[1]); Ok(Text(x))
    case VerifyDate => var x :- Queries.VerifyDate(kb, vs, inp[0], inp[1]); Ok(Text(x))
  }

  /** The operations whose one register input is an entity set. */
  predicate ReadsOneSet(op: Op) {
    match op
    case FindAll | Find | And | Or | SelectBetween | QueryRelation | QueryRelationQualifier
       | VerifyStr | VerifyNum | VerifyYear | VerifyDate => false
    case _ => true
  }

  /** The operations that read one entity set. */
  function RunOnEntities(kb: KB, op: Op, e: Entities, inp: seq<string>): Result<Register>
    requires Valid(kb)
    requires ReadsOneSet(op) && |inp| == StringArity(op)
  {
    match op
    case FilterConcept => Ok(EntitySet(Retrieval.FilterConcept(kb, e, inp[0])))
    case FilterStr => var x :- Filters.FilterStr(kb, e, inp[0], inp[1]); Ok(EntitySet(x))
    case FilterNum => var x :- Filters.FilterNum(kb, e, inp[0], inp[1], inp[2]); Ok(EntitySet(x))
    case FilterYear => var x :- Filters.FilterYear(kb, e, inp[0], inp[1], inp[2]); Ok(EntitySet(x))
    case FilterDate => var x :- Filters.FilterDate(kb, e, inp[0], inp[1], inp[2]); Ok(EntitySet(x))
    case QFilterStr => var x :- Filters.QFilterStr(kb, e, inp[0], inp[1]); Ok(EntitySet(x))
    case QFilterNum => var x :- Filters.QFilterNum(kb, e, inp[0], inp[1], inp[2]); Ok(EntitySet(x))
    case QFilterYear => var x :- Filters.QFilterYear(kb, e, inp[0], inp[1], inp[2]); Ok(EntitySet(x))
    case QFilterDate => var x :- Filters.QFilterDate(kb, e, inp[0], inp[1], inp[2]); Ok(EntitySet(x))
    case Relate => Ok(EntitySet(Filters.Relate(kb, e, inp[0], inp[1])))
    case QueryName => var x :- Retrieval.QueryName(kb, e); Ok(Strings(x))
    case Count => Ok(Number(Retrieval.Count(e)))
    case SelectAmong => var x :- Selection.SelectAmong(kb, e, inp[0], inp[1]); Ok(Strings(x))
    case QueryAttr => Ok(ValueList(Queries.QueryAttr(kb, e, inp[0])))
    case QueryAttrUnderCondition =>
      var x :- Queries.QueryAttrUnderCondition(kb, e, inp[0], inp[1], inp[2]); Ok(ValueList(x))
    case QueryAttrQualifier =>
      var x :- Queries.QueryAttrQualifier(kb, e, inp[0], inp[1], inp[2]); Ok(ValueList(x))
  }

  // ---------------------------------------------------------------------------
  // Execution

  /** What a step calls, `getattr(self, p)(*fun_args, *inp)`, as a function value; the run
      over the program does not depend on what the operations compute. */
  type Engine = (string, seq<Register>, seq<string>) --> Result<Register>

  ghost predicate Total(call: Engine) {
    forall p, args, inp :: call.requires(p, args, inp)
  }

  /** The engine over a knowledge base: every name goes through `Apply`. */
  function EngineOf(kb: KB): (call: Engine)
    requires Valid(kb)
    ensures Total(call)
    ensures forall p, args, inp :: call(p, args, inp) == Apply(kb, p, args, inp)
  {
    (p: string, args: seq<Register>, inp: seq<string>) requires Valid(kb) => Apply(kb, p, args, inp)
  }

  /** Every dependency of a step names an earlier step. */
  predicate DepsBackward(deps: seq<seq<int>>) {
    forall i, j :: 0 <= i < |deps| && 0 <= j < |deps[i]| ==> 0 <= deps[i][j] < i
  }

  function Renamed(p: string): string {
    if p == "What" then "QueryName" else p
  }

  /** The registers a step reads, in the order of its dependency list. */
  function Gather(memory: seq<Register>, d: seq<int>): (r: seq<Register>)
    requires forall j :: 0 <= j < |d| ==> 0 <= d[j] < |memory|
    ensures |r| == |d| && forall j :: 0 <= j < |d| ==> r[j] == memory[d[j]]
  {
    seq(|d|, j requires 0 <= j < |d| => memory[d[j]])
  }

  /** One pass of the loop body: `<START>` writes `None`, any other name is looked up and
      called on the registers its dependencies name and its own inputs. */
  function Step(call: Engine, prog: seq<string>, deps: seq<seq<int>>, ins: seq<seq<string>>, memory: seq<Register>)
    : Result<Register>
    requires Total(call)
    requires |deps| == |prog| && DepsBackward(deps)
    requires |memory| < |prog| && |memory| < |ins|
  {
    var k := |memory|;
    var p := Renamed(prog[k]);
    if p == "<START>" then Ok(Nothing) else call(p, Gather(memory, deps[k]), ins[k])
  }

  /** The loop over `zip(program, dependency, inputs)`, from step `|memory|` on: it stops at
      the shorter of the program and the inputs, or at `<END>`. */
  function Exec(call: Engine, prog: seq<string>, deps: seq<seq<int>>, ins: seq<seq<string>>, memory: seq<Register>)
    : (r: Result<seq<Register>>)
    requires Total(call)
    requires |deps| == |prog| && DepsBackward(deps)
    requires |memory| <= |prog| && |memory| <= |ins|
    ensures r.Ok? ==> |memory| <= |r.value| <= |prog| && r.value[..|memory|] == memory
    ensures r.Ok? && |memory| < |prog| && |memory| < |ins| && prog[|memory|] != "<END>" ==> |r.value| > |memory|
    decreases |prog| - |memory|
  {
    var k := |memory|;
    if k == |prog| || k == |ins| || prog[k] == "<END>" then Ok(memory)
    else
      var res :- Step(call, prog, deps, ins, memory);
      var r :- Exec(call, prog, deps, ins, memory + [res]);
      assert r[..k] == (r[..k + 1])[..k];
      Ok(r)
  }

  lemma ExecUnfold(call: Engine, prog: seq<string>, deps: seq<seq<int>>, ins: seq<seq<string>>, memory: seq<Register>)
    requires Total(call)
    requires |deps| == |prog| && DepsBackward(deps)
    requires |memory| < |prog| && |memory| < |ins| && prog[|memory|] != "<END>"
    ensures Step(call, prog, deps, ins, memory).Err? ==>
      Exec(call, prog, deps, ins, memory) == Err(Step(call, prog, deps, ins, memory).error)
    ensures Step(call, prog, deps, ins, memory).Ok? ==>
      Exec(call, prog, deps, ins, memory) == Exec(call, prog, deps, ins, memory + [Step(call, prog, deps, ins, memory).value])
  {
  }

  function Augment<T>(first: T, middle: seq<T>, last: T): seq<T> {
    [first] + middle + [last]
  }

  /** The body of `forward` over any engine: the program between `<START>` and `<END>`, run
      on its inputs; the result is the last register written. A branch stack that runs dry
      fails before any step runs. */
  function Interpret(call: Engine, program: seq<string>, inputs: seq<seq<string>>): (r: Result<Register>)
    requires Total(call)
    ensures Infer(Augment("<START>", program, "<END>")).Err? ==> r == Err(IndexOutOfRange)
  {
    InferLengths(Augment("<START>", program, "<END>"));
    var prog := Augment("<START>", program, "<END>");
    var ins := Augment([], inputs, []);
    var (deps, _) :- Infer(prog);
    InferFits(prog);
    assert DepsBackward(deps) by {
      forall i, j | 0 <= i < |deps| && 0 <= j < |deps[i]| ensures 0 <= deps[i][j] < i {
        assert DepsFit(prog, i, deps[i]);
      }
    }
    var memory :- Exec(call, prog, deps, ins, []);
    Ok(memory[|memory| - 1])
  }

  /** `forward` on a knowledge base. */
  function Forward(kb: KB, program: seq<string>, inputs: seq<seq<string>>): (r: Result<Register>)
    requires Valid(kb)
    ensures Infer(Augment("<START>", program, "<END>")).Err? ==> r == Err(IndexOutOfRange)
  {
    Interpret(EngineOf(kb), program, inputs)
  }

  // ---------------------------------------------------------------------------
  // Properties of whole programs

  /** Interpret's result once its two phases are known. */
  lemma InterpretIs(call: Engine, program: seq<string>, inputs: seq<seq<string>>, deps: seq<seq<int>>, mem: seq<Register>)
    requires Total(call)
    requires Infer(Augment("<START>", program, "<END>")).Ok? && Infer(Augment("<START>", program, "<END>")).value.0 == deps
    requires |deps| == |program| + 2 && DepsBackward(deps)
    requires Exec(call, Augment("<START>", program, "<END>"), deps, Augment([], inputs, []), []) == Ok(mem)
    ensures |mem| > 0 && Interpret(call, program, inputs) == Ok(mem[|mem| - 1])
  {
    var prog := Augment("<START>", program, "<END>");
    assert prog[0] == "<START>";
  }

  /** Interpret's failure once the inference is known and the run fails. */
  lemma InterpretFails(call: Engine, program: seq<string>, inputs: seq<seq<string>>, deps: seq<seq<int>>, e: Error)
    requires Total(call)
    requires Infer(Augment("<START>", program, "<END>")).Ok? && Infer(Augment("<START>", program, "<END>")).value.0 == deps
    requires |deps| == |program| + 2 && DepsBackward(deps)
    requires Exec(call, Augment("<START>", program, "<END>"), deps, Augment([], inputs, []), []) == Err(e)
    ensures Interpret(call, program, inputs) == Err(e)
  {
  }

  /** Calling an operation by its own name runs that operation once the argument counts
      fit, and fails with `ArityMismatch` otherwise. */
  lemma ApplyOp(kb: KB, op: Op, args: seq<Register>, inp: seq<string>)
    requires Valid(kb)
    ensures |inp| != StringArity(op) || |args| != RegisterArity(op) ==> Apply(kb, OpName(op), args, inp) == Err(ArityMismatch)
    ensures |inp| == StringArity(op) && |args| == RegisterArity(op) ==> Apply(kb, OpName(op), args, inp) == Run(kb, op, args, inp)
  {
    LookupFinds(op);
  }

  /** The calls the whole-program lemmas make, on a knowledge base. */
  lemma ApplyFind(kb: KB, name: string)
    requires Valid(kb)
    ensures Apply(kb, "Find", [], [name]) == Ok(EntitySet(Retrieval.Find(kb, name)))
  {
    ApplyOp(kb, Find, [], [name]);
  }

  lemma ApplyFindAll(kb: KB)
    requires Valid(kb)
    ensures Apply(kb, "FindAll", [], []) == Ok(EntitySet(Retrieval.FindAll(kb)))
  {
    ApplyOp(kb, FindAll, [], []);
  }

  lemma ApplyQueryName(kb: KB, e: Entities)
    requires Valid(kb) && Retrieval.QueryName(kb, e).Ok?
    ensures Apply(kb, "QueryName", [EntitySet(e)], []) == Ok(Strings(Retrieval.QueryName(kb, e).value))
  {
    ApplyOp(kb, QueryName, [EntitySet(e)], []);
  }

  lemma ApplyAnd(kb: KB, a: Entities, b: Entities)
    requires Valid(kb)
    ensures Apply(kb, "And", [EntitySet(a), EntitySet(b)], []) == Ok(EntitySet(Retrieval.And(a, b)))
  {
    ApplyOp(kb, And, [EntitySet(a), EntitySet(b)], []);
  }

  /** `<PAD>` is no operation's name. */
  lemma LookupPad()
    ensures Lookup("<PAD>") == None
  {
  }

  /** An empty program runs only `<START>` and returns its `None`, whatever the engine. */
  lemma InterpretEmpty(call: Engine)
    requires Total(call)
    ensures Interpret(call, [], []) == Ok(Nothing)
  {
    var prog := Augment("<START>", [], "<END>");
    assert prog[..0] == [] && prog[..1] == ["<START>"];
    InferUnfold(prog, 1);
    assert Infer(prog[..1]).Ok? && Infer(prog[..1]).value.0 == [[]] && Infer(prog[..1]).value.1 == [];
    InferUnfold(prog, |prog|);
    assert prog[..|prog|] == prog;
    assert Infer(prog).Ok? && Infer(prog).value.0 == [[], []] && Infer(prog).value.1 == [];
    var ins: seq<seq<string>> := Augment([], [], []);
    var deps: seq<seq<int>> := [[], []];
    ExecUnfold(call, prog, deps, ins, []);
    assert [] + [Nothing] == [Nothing];
    assert Exec(call, prog, deps, ins, [Nothing]) == Ok([Nothing]);
    InterpretIs(call, [], [], deps, [Nothing]);
  }

  /** A program whose first operation joins two branches fails in the inference, before
      anything runs: no branch has been opened. */
  lemma LeadingJoinFails(call: Engine, p: string, rest: seq<string>, inputs: seq<seq<string>>)
    requires Total(call)
    requires ShapeOf(p) == Joins
    ensures Interpret(call, [p] + rest, inputs) == Err(IndexOutOfRange)
  {
    var prog := Augment("<START>", [p] + rest, "<END>");
    assert prog[1] == p;
    assert prog[..1] == ["<START>"];
    assert Balance(prog[..1]) == 0 by {
      assert prog[..1][..0] == [];
    }
    InferSucceeds(prog);
  }

  /** The shapes of the names the whole-program lemmas use. */
  lemma ShapesOfNames()
    ensures ShapeOf("<START>") == Marker && ShapeOf("<END>") == Marker && ShapeOf("<PAD>") == Marker
    ensures ShapeOf("Find") == Opens && ShapeOf("FindAll") == Opens
    ensures ShapeOf("What") == Chains && ShapeOf("And") == Joins
  {
  }

  /** The inference after one more name. */
  lemma InferSnoc(prefix: seq<string>, p: string)
    ensures Infer(prefix + [p]) == InferStep(Infer(prefix), p, |prefix|)
  {
    assert (prefix + [p])[..|prefix|] == prefix;
  }

  /** A marker and a retrieval open one branch; nothing is read yet. */
  lemma InferOpening(p0: string, p1: string)
    requires ShapeOf(p0) == Marker && ShapeOf(p1) == Opens
    ensures Infer([p0, p1]) == Ok(([[], []], [0]))
  {
    var d0: seq<seq<int>> := [];
    var s0: seq<int> := [];
    assert Infer([]) == Ok((d0, s0));
    InferSnoc([], p0);
    assert [] + [p0] == [p0];
    assert d0 + [[]] == [[]];
    assert Infer([p0]) == Ok(([[]], s0));
    InferSnoc([p0], p1);
    assert [p0] + [p1] == [p0, p1];
    var d1: seq<seq<int>> := [[]];
    assert d1 + [[]] == [[], []] && s0 + [0] == [0];
  }

  /** A retrieval, then an operation on it: the operation reads the retrieval's step. */
  lemma InferChain(p0: string, p1: string, p2: string, p3: string)
    requires ShapeOf(p0) == Marker && ShapeOf(p1) == Opens && ShapeOf(p2) == Chains && ShapeOf(p3) == Marker
    ensures Infer([p0, p1, p2, p3]) == Ok(([[], [], [1], []], [0]))
  {
    InferOpening(p0, p1);
    InferSnoc([p0, p1], p2);
    assert [p0, p1] + [p2] == [p0, p1, p2];
    var d2: seq<seq<int>> := [[], []];
    assert d2 + [[1]] == [[], [], [1]];
    assert Infer([p0, p1, p2]) == Ok(([[], [], [1]], [0]));
    InferSnoc([p0, p1, p2], p3);
    assert [p0, p1, p2] + [p3] == [p0, p1, p2, p3];
    var d3: seq<seq<int>> := [[], [], [1]];
    assert d3 + [[]] == [[], [], [1], []];
  }

  /** Two retrievals, then a join: the join reads the end of the first branch (the step
      before the second retrieval) and the end of the second. */
  lemma InferJoin(p0: string, p1: string, p2: string, p3: string, p4: string)
    requires ShapeOf(p0) == Marker && ShapeOf(p1) == Opens && ShapeOf(p2) == Opens
    requires ShapeOf(p3) == Joins && ShapeOf(p4) == Marker
    ensures Infer([p0, p1, p2, p3, p4]) == Ok(([[], [], [], [1, 2], []], [0]))
  {
    InferOpening(p0, p1);
    InferSnoc([p0, p1], p2);
    assert [p0, p1] + [p2] == [p0, p1, p2];
    var d2: seq<seq<int>> := [[], []];
    assert d2 + [[]] == [[], [], []] && [0] + [1] == [0, 1];
    assert Infer([p0, p1, p2]) == Ok(([[], [], []], [0, 1]));
    InferSnoc([p0, p1, p2], p3);
    assert [p0, p1, p2] + [p3] == [p0, p1, p2, p3];
    var st: seq<int> := [0, 1];
    assert st[|st| - 1] == 1 && st[..|st| - 1] == [0];
    var d3: seq<seq<int>> := [[], [], []];
    assert d3 + [[1, 2]] == [[], [], [], [1, 2]];
    assert Infer([p0, p1, p2, p3]) == Ok(([[], [], [], [1, 2]], [0]));
    InferSnoc([p0, p1, p2, p3], p4);
    assert [p0, p1, p2, p3] + [p4] == [p0, p1, p2, p3, p4];
    var d4: seq<seq<int>> := [[], [], [], [1, 2]];
    assert d4 + [[]] == [[], [], [], [1, 2], []];
  }

  /** A retrieval among markers: no step reads anything. */
  lemma InferMarkers(p0: string, p1: string, p2: string, p3: string, p4: string)
    requires ShapeOf(p0) == Marker && ShapeOf(p1) == Opens
    requires ShapeOf(p2) == Marker && ShapeOf(p3) == Marker && ShapeOf(p4) == Marker
    ensures Infer([p0, p1, p2, p3]) == Ok(([[], [], [], []], [0]))
    ensures Infer([p0, p1, p2, p3, p4]) == Ok(([[], [], [], [], []], [0]))
  {
    InferOpening(p0, p1);
    InferSnoc([p0, p1], p2);
    assert [p0, p1] + [p2] == [p0, p1, p2];
    var d2: seq<seq<int>> := [[], []];
    assert d2 + [[]] == [[], [], []];
    assert Infer([p0, p1, p2]) == Ok(([[], [], []], [0]));
    InferSnoc([p0, p1, p2], p3);
    assert [p0, p1, p2] + [p3] == [p0, p1, p2, p3];
    var d3: seq<seq<int>> := [[], [], []];
    assert d3 + [[]] == [[], [], [], []];
    assert Infer([p0, p1, p2, p3]) == Ok(([[], [], [], []], [0]));
    InferSnoc([p0, p1, p2, p3], p4);
    assert [p0, p1, p2, p3] + [p4] == [p0, p1, p2, p3, p4];
    var d4: seq<seq<int>> := [[], [], [], []];
    assert d4 + [[]] == [[], [], [], [], []];
  }

  /** `Find name; What` over any engine: `What` reads the retrieval, and its answer is the
      program's. */
  lemma InterpretFindWhat(call: Engine, name: string, found: Entities, names: seq<string>)
    requires Total(call)
    requires call("Find", [], [name]) == Ok(EntitySet(found))
    requires call("QueryName", [EntitySet(found)], []) == Ok(Strings(names))
    ensures Interpret(call, ["Find", "What"], [[name], []]) == Ok(Strings(names))
  {
    var prog := ["<START>", "Find", "What", "<END>"];
    var ins := [[], [name], [], []];
    var deps: seq<seq<int>> := [[], [], [1], []];
    ShapesOfNames();
    InferChain("<START>", "Find", "What", "<END>");
    var m := [Nothing, EntitySet(found), Strings(names)];
    assert m[..1] == [Nothing] && m[..2] == [Nothing, EntitySet(found)];
    ExecUnfold(call, prog, deps, ins, []);
    assert [] + [Nothing] == m[..1];
    assert Gather(m[..1], deps[1]) == [];
    ExecUnfold(call, prog, deps, ins, m[..1]);
    assert m[..1] + [EntitySet(found)] == m[..2];
    assert Gather(m[..2], deps[2]) == [EntitySet(found)];
    ExecUnfold(call, prog, deps, ins, m[..2]);
    assert m[..2] + [Strings(names)] == m;
    assert Exec(call, prog, deps, ins, m) == Ok(m);
    assert Augment("<START>", ["Find", "What"], "<END>") == prog;
    assert Augment<seq<string>>([], [[name], []], []) == ins;
    InterpretIs(call, ["Find", "What"], [[name], []], deps, m);
  }

  /** `Find` then `What`: every id named `name`, named back — `name`, once per id. */
  lemma ForwardFindWhat(kb: KB, name: string)
    requires Valid(kb)
    ensures Forward(kb, ["Find", "What"], [[name], []]).Ok?
    ensures var r := Forward(kb, ["Find", "What"], [[name], []]).value;
      r.Strings? && |r.items| == |Retrieval.Find(kb, name).ids| && forall i :: 0 <= i < |r.items| ==> r.items[i] == name
  {
    var call := EngineOf(kb);
    var found := Retrieval.Find(kb, name);
    Retrieval.FindThenQueryName(kb, name);
    var names := Retrieval.QueryName(kb, found).value;
    ApplyFind(kb, name);
    ApplyQueryName(kb, found);
    InterpretFindWhat(call, name, found, names);
  }

  /** The run of `Find a; Find b; And` over any engine: the join reads both retrievals. */
  lemma ExecJoin(call: Engine, a: string, b: string, fa: Entities, fb: Entities, both: Register)
    requires Total(call)
    requires call("Find", [], [a]) == Ok(EntitySet(fa)) && call("Find", [], [b]) == Ok(EntitySet(fb))
    requires call("And", [EntitySet(fa), EntitySet(fb)], []) == Ok(both)
    ensures Exec(call, ["<START>", "Find", "Find", "And", "<END>"], [[], [], [], [1, 2], []], [[], [a], [b], [], []], [])
        == Ok([Nothing, EntitySet(fa), EntitySet(fb), both])
  {
    var prog := ["<START>", "Find", "Find", "And", "<END>"];
    var ins := [[], [a], [b], [], []];
    var deps: seq<seq<int>> := [[], [], [], [1, 2], []];
    var m := [Nothing, EntitySet(fa), EntitySet(fb), both];
    ExecUnfold(call, prog, deps, ins, []);
    assert [] + [Nothing] == m[..1];
    assert Gather(m[..1], deps[1]) == [];
    ExecUnfold(call, prog, deps, ins, m[..1]);
    assert m[..1] + [EntitySet(fa)] == m[..2];
    assert Gather(m[..2], deps[2]) == [];
    ExecUnfold(call, prog, deps, ins, m[..2]);
    assert m[..2] + [EntitySet(fb)] == m[..3];
    assert Gather(m[..3], deps[3]) == [EntitySet(fa), EntitySet(fb)];
    ExecUnfold(call, prog, deps, ins, m[..3]);
    assert m[..3] + [both] == m;
    assert Exec(call, prog, deps, ins, m) == Ok(m);
  }

  /** `Find a; Find b; And` over any engine answers what the join answers. */
  lemma InterpretJoin(call: Engine, a: string, b: string, fa: Entities, fb: Entities, both: Register)
    requires Total(call)
    requires call("Find", [], [a]) == Ok(EntitySet(fa)) && call("Find", [], [b]) == Ok(EntitySet(fb))
    requires call("And", [EntitySet(fa), EntitySet(fb)], []) == Ok(both)
    ensures Interpret(call, ["Find", "Find", "And"], [[a], [b], []]) == Ok(both)
  {
    ShapesOfNames();
    InferJoin("<START>", "Find", "Find", "And", "<END>");
    ExecJoin(call, a, b, fa, fb, both);
    assert Augment("<START>", ["Find", "Find", "And"], "<END>") == ["<START>", "Find", "Find", "And", "<END>"];
    assert Augment<seq<string>>([], [[a], [b], []], []) == [[], [a], [b], [], []];
    InterpretIs(call, ["Find", "Find", "And"], [[a], [b], []], [[], [], [], [1, 2], []],
      [Nothing, EntitySet(fa), EntitySet(fb), both]);
  }

  /** Two retrievals and a join: the join reads the end of the first branch and the end of
      the second, so `Find a; Find b; And` intersects the two retrievals. */
  lemma ForwardJoinsBranches(kb: KB, a: string, b: string)
    requires Valid(kb)
    ensures Forward(kb, ["Find", "Find", "And"], [[a], [b], []])
      == Ok(EntitySet(Retrieval.And(Retrieval.Find(kb, a), Retrieval.Find(kb, b))))
  {
    var call := EngineOf(kb);
    var fa := Retrieval.Find(kb, a);
    var fb := Retrieval.Find(kb, b);
    ApplyFind(kb, a);
    ApplyFind(kb, b);
    ApplyAnd(kb, fa, fb);
    InterpretJoin(call, a, b, fa, fb, EntitySet(Retrieval.And(fa, fb)));
  }

  /** `Find What` with only the padding inputs over any engine: `Find` receives no name. */
  lemma InterpretUnnamed(call: Engine)
    requires Total(call)
    requires call("Find", [], []).Err?
    ensures Interpret(call, ["Find", "What"], []) == Err(call("Find", [], []).error)
  {
    var prog := ["<START>", "Find", "What", "<END>"];
    var ins: seq<seq<string>> := [[], []];
    var deps: seq<seq<int>> := [[], [], [1], []];
    ShapesOfNames();
    InferChain("<START>", "Find", "What", "<END>");
    ExecUnfold(call, prog, deps, ins, []);
    assert [] + [Nothing] == [Nothing];
    assert Gather([Nothing], deps[1]) == [];
    ExecUnfold(call, prog, deps, ins, [Nothing]);
    assert Augment("<START>", ["Find", "What"], "<END>") == prog;
    assert Augment<seq<string>>([], [], []) == ins;
    InterpretFails(call, ["Find", "What"], [], deps, call("Find", [], []).error);
  }

  /** `zip` pairs steps with inputs by position: with no inputs given, the padding `[]`
      meant for `<END>` reaches the first operation, and `Find` without a name fails. */
  lemma MissingInputsShiftPadding(kb: KB)
    requires Valid(kb)
    ensures Forward(kb, ["Find", "What"], []) == Err(ArityMismatch)
  {
    ApplyOp(kb, Find, [], []);
    InterpretUnnamed(EngineOf(kb));
  }

  /** `FindAll <END> <PAD>` over any engine stops at the first `<END>`. */
  lemma InterpretStopsAtEnd(call: Engine, all: Register)
    requires Total(call)
    requires call("FindAll", [], []) == Ok(all)
    ensures Interpret(call, ["FindAll", "<END>", "<PAD>"], [[], [], []]) == Ok(all)
  {
    var prog := ["<START>", "FindAll", "<END>", "<PAD>", "<END>"];
    var ins: seq<seq<string>> := [[], [], [], [], []];
    var deps: seq<seq<int>> := [[], [], [], [], []];
    ShapesOfNames();
    InferMarkers("<START>", "FindAll", "<END>", "<PAD>", "<END>");
    var m := [Nothing, all];
    ExecUnfold(call, prog, deps, ins, []);
    assert [] + [Nothing] == m[..1];
    assert Gather(m[..1], deps[1]) == [];
    ExecUnfold(call, prog, deps, ins, m[..1]);
    assert m[..1] + [all] == m;
    assert Exec(call, prog, deps, ins, m) == Ok(m);
    assert Augment("<START>", ["FindAll", "<END>", "<PAD>"], "<END>") == prog;
    assert Augment<seq<string>>([], [[], [], []], []) == ins;
    InterpretIs(call, ["FindAll", "<END>", "<PAD>"], [[], [], []], deps, m);
  }

  /** `<END>` stops the run wherever it stands, so what follows it never runs. */
  lemma EndStopsTheRun(kb: KB)
    requires Valid(kb)
    ensures Forward(kb, ["FindAll", "<END>", "<PAD>"], [[], [], []]) == Ok(EntitySet(Retrieval.FindAll(kb)))
  {
    ApplyFindAll(kb);
    InterpretStopsAtEnd(EngineOf(kb), EntitySet(Retrieval.FindAll(kb)));
  }

  /** `FindAll <PAD>` over any engine fails as the call for `<PAD>` fails. */
  lemma InterpretReachesPad(call: Engine, all: Register)
    requires Total(call)
    requires call("FindAll", [], []) == Ok(all) && call("<PAD>", [], []).Err?
    ensures Interpret(call, ["FindAll", "<PAD>"], [[], []]) == Err(call("<PAD>", [], []).error)
  {
    var prog := ["<START>", "FindAll", "<PAD>", "<END>"];
    var ins: seq<seq<string>> := [[], [], [], []];
    var deps: seq<seq<int>> := [[], [], [], []];
    ShapesOfNames();
    InferMarkers("<START>", "FindAll", "<PAD>", "<END>", "<END>");
    var m := [Nothing, all];
    ExecUnfold(call, prog, deps, ins, []);
    assert [] + [Nothing] == m[..1];
    assert Gather(m[..1], deps[1]) == [];
    ExecUnfold(call, prog, deps, ins, m[..1]);
    assert m[..1] + [all] == m;
    assert Gather(m, deps[2]) == [];
    ExecUnfold(call, prog, deps, ins, m);
    assert Augment("<START>", ["FindAll", "<PAD>"], "<END>") == prog;
    assert Augment<seq<string>>([], [[], []], []) == ins;
    InterpretFails(call, ["FindAll", "<PAD>"], [[], []], deps, call("<PAD>", [], []).error);
  }

  /** `<PAD>` names no operation, so a run that reaches it fails. */
  lemma PadFails(kb: KB)
    requires Valid(kb)
    ensures Forward(kb, ["FindAll", "<PAD>"], [[], []]) == Err(UnknownOperation)
  {
    ApplyFindAll(kb);
    LookupPad();
    InterpretReachesPad(EngineOf(kb), EntitySet(Retrieval.FindAll(kb)));
  }
}
