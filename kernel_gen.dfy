/**
 * The pieces of the kernel generator that the check node relies on:
 * the kernel-parts accumulator, the per-kernel name generator, device
 * buffers, the kernel whose arguments are bound, and a leaf operation
 * that stands for the checked argument. Their own definitions are not
 * part of this model; each stand-in here does only what the check node
 * needs of it.
 */
module KernelGen {
  import Decimal

  /** String fragments of a kernel, merged bottom-up during one emission pass. */
  datatype KernelParts = KernelParts(args: string, body: string, reduction: string)

  const NoParts := KernelParts("", "", "")

  /** A declared kernel parameter: a `__global` array of the given element type. */
  datatype Param = Param(typeName: string, name: string)

  function Declare(p: Param): string {
    "__global " + p.typeName + "* " + p.name + ", "
  }

  function DeclareAll(ps: seq<Param>): string
    decreases |ps|
  {
    if ps == [] then "" else Declare(ps[0]) + DeclareAll(ps[1..])
  }

  lemma {:induction false} DeclareAllAppend(ps: seq<Param>, qs: seq<Param>)
    ensures DeclareAll(ps + qs) == DeclareAll(ps) + DeclareAll(qs)
    decreases |ps|
  {
    if ps == [] {
      assert ps + qs == qs;
    } else {
      assert (ps + qs)[1..] == ps[1..] + qs;
      DeclareAllAppend(ps[1..], qs);
    }
  }

  /** The k-th name handed out by a name generator. */
  function FreshName(k: nat): string {
    "var" + Decimal.NatToString(k)
  }

  /** A name generator never hands out the same name twice. */
  lemma FreshNameInjective(a: nat, b: nat)
    requires a != b
    ensures FreshName(a) != FreshName(b)
  {
    if FreshName(a) == FreshName(b) {
      assert FreshName(a)[3..] == Decimal.NatToString(a);
      assert FreshName(b)[3..] == Decimal.NatToString(b);
      Decimal.NatToStringInjective(a, b);
    }
  }

  /** Produces unique variable names for one kernel. */
  class NameGenerator {
    var issued: nat

    constructor ()
      ensures issued == 0
    {
      issued := 0;
    }

    method Generate() returns (name: string)
      modifies this
      ensures issued == old(issued) + 1
      ensures name == FreshName(issued)
    {
      issued := issued + 1;
      name := FreshName(issued);
    }
  }

  /**
   * A device matrix: element type, shape, and the contents last written to
   * it from the host (`[]` while nothing has been written: fresh device
   * memory is uninitialised).
   */
  class MatrixCl<V> {
    const typeName: string
    const rows: nat
    const cols: nat
    var data: seq<V>

    predicate Valid()
      reads this
    {
      data == [] || |data| == rows * cols
    }

    constructor (typeName: string, rows: nat, cols: nat)
      ensures this.typeName == typeName && this.rows == rows && this.cols == cols
      ensures data == [] && Valid()
    {
      this.typeName, this.rows, this.cols := typeName, rows, cols;
      data := [];
    }

    /** Sets every element to `v` (`zeros()` is `Fill(0)`). */
    method Fill(v: V)
      modifies this
      ensures Valid() && |data| == rows * cols
      ensures forall k :: 0 <= k < |data| ==> data[k] == v
    {
      data := seq(rows * cols, _ => v);
    }
  }

  /** One `setArg` call: argument number, the bound buffer and its element type. */
  datatype Binding = Binding(index: int, buffer: object, typeName: string)

  /** The declared parameters and the bound arguments agree one for one, in order. */
  predicate Matches(ps: seq<Param>, bs: seq<Binding>, first: int) {
    |ps| == |bs| &&
    forall k :: 0 <= k < |ps| ==> bs[k].index == first + k && bs[k].typeName == ps[k].typeName
  }

  /** A compiled kernel; the device side of `setArg` is recorded as a log. */
  class Kernel {
    var bindings: seq<Binding>

    constructor ()
      ensures bindings == []
    {
      bindings := [];
    }

    method SetArg<V>(index: int, m: MatrixCl<V>)
      modifies this
      ensures bindings == old(bindings) + [Binding(index, m, m.typeName)]
    {
      bindings := bindings + [Binding(index, m, m.typeName)];
    }
  }

  /**
   * Stand-in for the checked argument: an operation that reads one device
   * matrix. On its first visit in a pass it takes a fresh name and
   * declares, then binds, that one matrix.
   */
  class Leaf<V> {
    const buffer: MatrixCl<V>
    var varName: string

    constructor (buffer: MatrixCl<V>)
      ensures this.buffer == buffer && varName == ""
    {
      this.buffer := buffer;
      varName := "";
    }

    function Rows(): int {
      buffer.rows
    }

    function Cols(): int {
      buffer.cols
    }

    /** What the leaf declares when its variable is named `v`. */
    function Params(v: string): seq<Param> {
      [Param(buffer.typeName, v + "_global")]
    }

    method GetKernelParts(generated: set<object>, nameGen: NameGenerator, rowIndex: string, colIndex: string)
      returns (res: KernelParts, generated': set<object>)
      modifies this`varName, nameGen
      ensures this in generated ==>
        res == NoParts && generated' == generated &&
        varName == old(varName) && nameGen.issued == old(nameGen.issued)
      ensures this !in generated ==>
        generated' == generated + {this} &&
        nameGen.issued == old(nameGen.issued) + 1 && varName == FreshName(nameGen.issued) &&
        res == KernelParts(DeclareAll(Params(varName)), "", "")
    {
      res, generated' := NoParts, generated;
      if this !in generated {
        varName := nameGen.Generate();
        generated' := generated + {this};
        res := res.(args := DeclareAll(Params(varName)));
      }
    }

    method SetArgs(generated: set<object>, kernel: Kernel, argNum: int)
      returns (generated': set<object>, argNum': int)
      modifies kernel
      ensures this in generated ==>
        generated' == generated && argNum' == argNum && kernel.bindings == old(kernel.bindings)
      ensures this !in generated ==>
        generated' == generated + {this} && argNum' == argNum + 1 &&
        kernel.bindings == old(kernel.bindings) + [Binding(argNum, buffer, buffer.typeName)]
    {
      generated', argNum' := generated, argNum;
      if this !in generated {
        generated' := generated + {this};
        kernel.SetArg(argNum', buffer);
        argNum' := argNum' + 1;
      }
    }
  }
}
