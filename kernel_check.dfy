/**
 * The validity-check node `check_cl_` of the kernel generator: a
 * left-hand-side-only operation that turns a boolean expression into an
 * error raised after the kernel has run. It offers no right-hand-side
 * emission at all.
 */
module KernelCheck {
  import opened Decimal
  import opened KernelGen

  /** Errors the node raises: `check_size_match`'s `std::invalid_argument`
    * (its arguments as given) and `std::domain_error` (its message). */
  datatype CheckError =
    | SizeMismatch(caller: string, exprI: string, nameI: string, i: int,
                   exprJ: string, nameJ: string, j: int)
    | DomainError(message: string)

  datatype Outcome<E> = Pass | Fail(error: E)

  /** `check_size_match`: raises iff the two sizes differ. */
  function CheckSizeMatch(caller: string, exprI: string, nameI: string, i: int,
                          exprJ: string, nameJ: string, j: int): (r: Outcome<CheckError>)
    ensures r.Pass? <==> i == j
    ensures r.Fail? ==> r.error == SizeMismatch(caller, exprI, nameI, i, exprJ, nameJ, j)
  {
    if i != j then Fail(SizeMismatch(caller, exprI, nameI, i, exprJ, nameJ, j)) else Pass
  }

  /** The guard constant the emitted reduction code compares the flag's previous value with. */
  const AsWrittenGuard := 1
  /** The guard constant under which the first failure is the one recorded. */
  const IntendedGuard := 0

  /**
   * The reduction code emitted for a check whose variable is `v` and whose
   * argument's is `argVar`, with the guard constant written as `guard`.
   */
  function ReductionCode(v: string, rowIndex: string, colIndex: string, argVar: string, guard: string): string {
    "if(!" + v + " && atomic_xchg(" + v + "_buffer, 1) == " + guard + "){\n"
    + v + "_buffer[1] = " + rowIndex + ";\n"
    + v + "_buffer[2] = " + colIndex + ";\n"
    + v + "_value[0] = " + argVar + ";\n"
    + "}"
  }

  /** The parameter declarations the node adds for variable `v` and value type `t`, as written. */
  function OwnArgsText(v: string, t: string): string {
    "__global int* " + v + "_buffer, __global " + t + "* " + v + "_value, "
  }

  /** That text declares exactly the two parameters `<v>_buffer` (int) and `<v>_value` (of type `t`). */
  lemma OwnDeclaration(v: string, t: string)
    ensures OwnArgsText(v, t) == DeclareAll([Param("int", v + "_buffer"), Param(t, v + "_value")])
  {
    var p0, p1 := Param("int", v + "_buffer"), Param(t, v + "_value");
    DeclarePair(p0, p1);
    var b, w := v + "_buffer", v + "_value";
    assert Declare(p0) == "__global int* " + b + ", " by {
      assert "__global " + "int" + "* " == "__global int* ";
    }
    assert Declare(p0) + Declare(p1) == "__global int* " + v + "_buffer, __global " + t + "* " + w + ", " by {
      assert "_buffer" + ", " + "__global " == "_buffer, __global ";
    }
  }

  /** Two parameters are declared one after the other. */
  lemma DeclarePair(p0: Param, p1: Param)
    ensures DeclareAll([p0, p1]) == Declare(p0) + Declare(p1)
  {
    assert [p0, p1][1..] == [p1];
    assert [p1][1..] == [];
    assert DeclareAll([p1]) == Declare(p1) + "" == Declare(p1);
  }

  /**
   * Parses the "<row>, <col>]" that follows the opening bracket of the
   * node's error message.
   */
  function ReportedIndices(tail: string): Option<(int, int)> {
    match IndexOf(tail, ',')
    case None => None
    case Some(i) =>
      var rest := tail[i + 1..];
      if |rest| == 0 || rest[0] != ' ' then None
      else match IndexOf(rest[1..], ']')
        case None => None
        case Some(j) =>
          match (ParseInt(tail[..i]), ParseInt(rest[1..][..j]))
          case (Some(r), Some(c)) => Some((r, c))
          case _ => None
  }

  /** Whatever follows the indices, they are read back as written. */
  lemma ReportedIndicesOfText(a: int, b: int, rest: string)
    ensures ReportedIndices(IntToString(a) + ", " + IntToString(b) + "] = " + rest) == Some((a, b))
  {
    var A, B := IntToString(a), IntToString(b);
    var t := A + ", " + B + "] = " + rest;
    var afterComma := " " + B + "] = " + rest;
    assert t == A + [','] + afterComma;
    IndexOfAfterInt(a, ',', afterComma);
    assert IndexOf(t, ',') == Some(|A|);
    assert t[..|A|] == A;
    assert t[|A| + 1..] == afterComma;
    assert afterComma[0] == ' ';
    assert afterComma[1..] == B + [']'] + (" = " + rest);
    IndexOfAfterInt(b, ']', " = " + rest);
    assert IndexOf(afterComma[1..], ']') == Some(|B|);
    assert afterComma[1..][..|B|] == B;
    ParseIntOfIntToString(a);
    ParseIntOfIntToString(b);
  }

  /** `m` closes with "] = <valueText>, but it must be <mustBe>!". */
  predicate ClosesWith(m: string, valueText: string, mustBe: string) {
    var t := Closing(valueText, mustBe);
    |t| <= |m| && m[|m| - |t|..] == t
  }

  /** The closing text "] = <valueText>, but it must be <mustBe>!". */
  function Closing(valueText: string, mustBe: string): string {
    "] = " + valueText + ", but it must be " + mustBe + "!"
  }

  /**
   * `m` reads "<caller>: <variable>[<row>, <col>] = <valueText>, but it must be <mustBe>!":
   * the prefix, then exactly the streamed indices (which parse back), then
   * the value and the requirement that close the message, with nothing
   * else in between.
   */
  predicate Reports(m: string, caller: string, variable: string, row: int, col: int,
                    valueText: string, mustBe: string) {
    var p, t := caller + ": " + variable + "[", Closing(valueText, mustBe);
    |p| <= |m| && m[..|p|] == p && ReportedIndices(m[|p|..]) == Some((row, col)) &&
    ClosesWith(m, valueText, mustBe) &&
    |p| + |t| <= |m| && m[|p|..|m| - |t|] == IntToString(row) + ", " + IntToString(col)
  }

  /** `Reports` leaves no freedom: it holds of exactly one message. */
  lemma ReportsDeterminesMessage(m: string, caller: string, variable: string, row: int, col: int,
                                 valueText: string, mustBe: string)
    requires Reports(m, caller, variable, row, col, valueText, mustBe)
    ensures m == (caller + ": " + variable + "[") + (IntToString(row) + ", " + IntToString(col))
                 + Closing(valueText, mustBe)
  {
    var p, t := caller + ": " + variable + "[", Closing(valueText, mustBe);
    assert ClosesWith(m, valueText, mustBe);
    Reassemble(m, p, IntToString(row) + ", " + IntToString(col), t);
  }

  /** A string cut into a head, a middle and a tail is their concatenation. */
  lemma Reassemble(m: string, p: string, mid: string, t: string)
    requires |p| + |t| <= |m| && m[..|p|] == p && m[|p|..|m| - |t|] == mid && m[|m| - |t|..] == t
    ensures m == p + mid + t
  {
    assert m == m[..|p|] + m[|p|..|m| - |t|] + m[|m| - |t|..];
  }

  /** The text of the domain error for a failure recorded at (`row`, `col`) with value `valueText`. */
  function FailureMessage(caller: string, variable: string, row: int, col: int,
                          valueText: string, mustBe: string): (m: string)
    ensures Reports(m, caller, variable, row, col, valueText, mustBe)
  {
    var prefix := caller + ": " + variable + "[";
    var suffix := ", but it must be " + mustBe + "!";
    var A, B := IntToString(row), IntToString(col);
    MessageFacts(prefix, A, B, valueText, mustBe);
    ReportedIndicesOfText(row, col, valueText + suffix);
    prefix + (A + ", " + B + "] = " + (valueText + suffix))
  }

  /** Where the prefix, the indices and the closing value and requirement sit in the assembled message. */
  lemma MessageFacts(prefix: string, a: string, b: string, valueText: string, mustBe: string)
    ensures var m := prefix + (a + ", " + b + "] = " + (valueText + (", but it must be " + mustBe + "!")));
      |prefix| <= |m| && m[..|prefix|] == prefix &&
      m[|prefix|..] == a + ", " + b + "] = " + (valueText + (", but it must be " + mustBe + "!")) &&
      ClosesWith(m, valueText, mustBe) &&
      |prefix| + |Closing(valueText, mustBe)| <= |m| &&
      m[|prefix|..|m| - |Closing(valueText, mustBe)|] == a + ", " + b
  {
    var suffix := ", but it must be " + mustBe + "!";
    var m := prefix + (a + ", " + b + "] = " + (valueText + suffix));
    var t := Closing(valueText, mustBe);
    assert t == "] = " + valueText + suffix;
    assert m == prefix + (a + ", " + b) + t;
  }

  /** `check_cl_<T>` over the stand-in argument operation `Leaf<V>`. */
  class CheckCl<V> {
    /** `buffer_`: [failure flag, row, column] of a recorded failure. */
    const buffer: MatrixCl<int>
    /** `value_`: the argument's value at the recorded failure. */
    const value: MatrixCl<V>
    const arg: Leaf<V>
    const functionName: string
    const errVariable: string
    const mustBe: string
    var varName: string

    /** The shapes and element types fixed at construction. */
    predicate Valid()
      reads buffer, value
    {
      buffer.Valid() && value.Valid() &&
      buffer.typeName == "int" && buffer.rows == 3 && buffer.cols == 1 &&
      value.typeName == arg.buffer.typeName && value.rows == 1 && value.cols == 1
    }

    constructor (functionName: string, errVariable: string, y: Leaf<V>, mustBe: string)
      ensures this.functionName == functionName && this.errVariable == errVariable
      ensures this.mustBe == mustBe && arg == y && varName == ""
      ensures Valid() && fresh(buffer) && fresh(value)
      ensures buffer.data == [0, 0, 0] && value.data == []
      ensures Rows() == y.Rows() && Cols() == y.Cols()
    {
      buffer := new MatrixCl<int>("int", 3, 1);
      value := new MatrixCl<V>(y.buffer.typeName, 1, 1);
      arg := y;
      this.functionName, this.errVariable, this.mustBe := functionName, errVariable, mustBe;
      varName := "";
      new;
      buffer.Fill(0);
    }

    /** Rows of the result of the checked expression. */
    function Rows(): (r: int)
      ensures r == arg.buffer.rows && r >= 0
    {
      arg.Rows()
    }

    /** Columns of the result of the checked expression. */
    function Cols(): (c: int)
      ensures c == arg.buffer.cols && c >= 0
    {
      arg.Cols()
    }

    /** The node's own two kernel parameters when its variable is `v`. */
    function OwnParams(v: string): seq<Param> {
      [Param("int", v + "_buffer"), Param(value.typeName, v + "_value")]
    }

    /** Everything a first visit declares, given the set it was called with. */
    function Declared(generated: set<object>): seq<Param>
      reads this, arg
    {
      (if arg in generated then [] else arg.Params(arg.varName)) + OwnParams(varName)
    }

    /** Everything a first visit binds, from argument number `argNum` on. */
    function Bound(generated: set<object>, argNum: int): seq<Binding> {
      var own := if arg in generated then argNum else argNum + 1;
      (if arg in generated then [] else [Binding(argNum, arg.buffer, arg.buffer.typeName)]) +
      [Binding(own, buffer, buffer.typeName), Binding(own + 1, value, value.typeName)]
    }

    /** Parameters are bound in the same number and order as they are declared. */
    lemma DeclaredMatchesBound(generated: set<object>, argNum: int)
      requires Valid()
      ensures Matches(Declared(generated), Bound(generated, argNum), argNum)
    {
    }

    /**
     * Emits the node's code on its first visit in a pass: a fresh name, the
     * argument's code, two parameters, a boolean variable and the guarded
     * write of the failure location.
     */
    method GetKernelPartsLhs(generated: set<object>, nameGen: NameGenerator, rowIndex: string, colIndex: string)
      returns (res: KernelParts, generated': set<object>)
      modifies this`varName, arg`varName, nameGen
      ensures this in generated ==>
        res == NoParts && generated' == generated && varName == old(varName) &&
        arg.varName == old(arg.varName) && nameGen.issued == old(nameGen.issued)
      ensures this !in generated ==>
        generated' == generated + {this, arg} &&
        varName == FreshName(old(nameGen.issued) + 1) &&
        (arg in generated ==>
          nameGen.issued == old(nameGen.issued) + 1 && arg.varName == old(arg.varName)) &&
        (arg !in generated ==>
          nameGen.issued == old(nameGen.issued) + 2 && arg.varName == FreshName(nameGen.issued)) &&
        res.args == DeclareAll(Declared(generated)) &&
        res.body == "bool " + varName &&
        res.reduction == ReductionCode(varName, rowIndex, colIndex, arg.varName, IntToString(AsWrittenGuard))
    {
      res, generated' := NoParts, generated;
      if this !in generated {
        varName := nameGen.Generate();
        generated' := generated + {this};
        res, generated' := arg.GetKernelParts(generated', nameGen, rowIndex, colIndex);
        var argParams := if arg in generated then [] else arg.Params(arg.varName);
        assert res.args == DeclareAll(argParams);
        OwnDeclaration(varName, value.typeName);
        DeclareAllAppend(argParams, OwnParams(varName));
        res := res.(args := res.args + OwnArgsText(varName, value.typeName));
        res := res.(body := res.body + "bool " + varName);
        res := res.(reduction := res.reduction + ReductionCode(varName, rowIndex, colIndex, arg.varName, "1"));
      }
    }

    /** Binds the argument's buffers, then `buffer_`, then `value_`, on the first visit in a pass. */
    method SetArgs(generated: set<object>, kernel: Kernel, argNum: int)
      returns (generated': set<object>, argNum': int)
      modifies kernel
      ensures this in generated ==>
        generated' == generated && argNum' == argNum && kernel.bindings == old(kernel.bindings)
      ensures this !in generated ==>
        generated' == generated + {this, arg} &&
        argNum' == argNum + |Bound(generated, argNum)| &&
        argNum' == (if arg in generated then argNum else argNum + 1) + 2 &&
        kernel.bindings == old(kernel.bindings) + Bound(generated, argNum)
    {
      generated', argNum' := generated, argNum;
      if this !in generated {
        generated' := generated + {this};
        generated', argNum' := arg.SetArgs(generated', kernel, argNum');
        kernel.SetArg(argNum', buffer);
        argNum' := argNum' + 1;
        kernel.SetArg(argNum', value);
        argNum' := argNum' + 1;
      }
    }

    /** Raises a size mismatch unless the argument has exactly the assigned shape; rows are checked first. */
    function CheckAssignDimensions(rows: int, cols: int): (r: Outcome<CheckError>)
      ensures r.Pass? <==> Rows() == rows && Cols() == cols
      ensures Rows() != rows ==>
        r == Fail(SizeMismatch("check_cl_.check_assign_dimensions", "Rows of ", "argument", Rows(),
                               "rows of ", "expression", rows))
      ensures Rows() == rows && Cols() != cols ==>
        r == Fail(SizeMismatch("check_cl_.check_assign_dimensions", "Columns of ", "argument", Cols(),
                               "columns of ", "expression", cols))
    {
      match CheckSizeMatch("check_cl_.check_assign_dimensions", "Rows of ", "argument", arg.Rows(),
                           "rows of ", "expression", rows)
      case Fail(e) => Fail(e)
      case Pass =>
        CheckSizeMatch("check_cl_.check_assign_dimensions", "Columns of ", "argument", arg.Cols(),
                       "columns of ", "expression", cols)
    }

    /**
     * The decision taken once the kernel has finished: `status` is the
     * content of `buffer_` read back from the device, `valueText` the
     * formatted `value_[0]`. Raises iff the failure flag is set, with a
     * message naming the function, the variable, the recorded row and
     * column, the value and the requirement.
     */
    function AddWriteEvent(status: seq<int>, valueText: string): (r: Outcome<CheckError>)
      requires |status| == 3
      ensures r.Fail? <==> status[0] != 0
      ensures r.Fail? ==>
        r.error.DomainError? &&
        Reports(r.error.message, functionName, errVariable, status[1], status[2], valueText, mustBe)
    {
      if status[0] != 0 then
        Fail(DomainError(FailureMessage(functionName, errVariable, status[1], status[2], valueText, mustBe)))
      else
        Pass
    }

    /** Emitting twice in one pass emits nothing, and names nothing, the second time. */
    method EmissionIsIdempotent(generated: set<object>, nameGen: NameGenerator, rowIndex: string, colIndex: string)
      returns (first: KernelParts, second: KernelParts)
      modifies this`varName, arg`varName, nameGen
      ensures this !in generated ==> first.args == DeclareAll(Declared(generated))
      ensures second == NoParts
      ensures nameGen.issued == old(nameGen.issued) +
        (if this in generated then 0 else if arg in generated then 1 else 2)
    {
      var g1, g2;
      first, g1 := GetKernelPartsLhs(generated, nameGen, rowIndex, colIndex);
      ghost var issued, name, argName := nameGen.issued, varName, arg.varName;
      second, g2 := GetKernelPartsLhs(g1, nameGen, rowIndex, colIndex);
      assert varName == name && arg.varName == argName && nameGen.issued == issued;
    }

    /**
     * One emission pass and one binding pass, each with its own empty
     * set, as the assignment does them: the kernel's parameters and its
     * bound arguments agree one for one.
     */
    method EmitThenBind(nameGen: NameGenerator, kernel: Kernel, argNum: int, rowIndex: string, colIndex: string)
      returns (parts: KernelParts, argNum': int, ghost declared: seq<Param>, ghost bound: seq<Binding>)
      requires Valid()
      modifies this`varName, arg`varName, nameGen, kernel
      ensures parts.args == DeclareAll(declared)
      ensures kernel.bindings == old(kernel.bindings) + bound
      ensures Matches(declared, bound, argNum) && argNum' == argNum + |declared|
      ensures |declared| == 3
      ensures declared == arg.Params(arg.varName) + OwnParams(varName)
      ensures bound == Bound({}, argNum)
    {
      var g1, g2;
      parts, g1 := GetKernelPartsLhs({}, nameGen, rowIndex, colIndex);
      declared := Declared({});
      g2, argNum' := SetArgs({}, kernel, argNum);
      bound := Bound({}, argNum);
      DeclaredMatchesBound({}, argNum);
    }
  }

  /** `check_cl`: wraps the matrix into an operation and builds a check over it. */
  method Check<V>(functionName: string, varName: string, y: MatrixCl<V>, mustBe: string)
    returns (c: CheckCl<V>)
    ensures fresh(c) && fresh(c.arg) && fresh(c.buffer) && fresh(c.value)
    ensures c.arg.buffer == y && c.Valid()
    ensures c.functionName == functionName && c.errVariable == varName && c.mustBe == mustBe
    ensures c.buffer.data == [0, 0, 0]
    ensures c.Rows() == y.rows && c.Cols() == y.cols
  {
    var op := new Leaf(y);
    c := new CheckCl(functionName, varName, op, mustBe);
  }
}
