# check_cl_ and rep_matrix, modelled in Dafny

This project models two parts of the Stan Math library.

**The validity-check node `check_cl_`** of the OpenCL kernel generator
(`stan/math/opencl/kernel_generator/check_cl.hpp`). This node can only
appear on the left-hand side of an assignment. It turns a boolean
expression into an error raised after the kernel has run. The model covers:

- construction: a zeroed 3×1 `int` status buffer and a 1×1 value buffer;
- code emission (`get_kernel_parts_lhs`): a walk that skips nodes already in
  the pass's "generated" set and takes a fresh variable name from the name
  generator. It emits the argument's code, then two parameters, a boolean
  variable and the guarded reduction code;
- argument binding (`set_args`): the same walk, binding kernel arguments in
  declaration order;
- the shape check (`check_assign_dimensions`) and `rows()`/`cols()`;
- the post-launch decision (`add_write_event`): whether to raise a domain
  error, and the text of its message;
- the factory `check_cl`.

Module `KernelGen` holds small stand-ins for collaborators whose own
definitions are not part of this model:

- the kernel-parts accumulator;
- a name generator. Its names, `var1`, `var2`, …, are a choice made here;
- device matrices;
- a kernel whose `setArg` calls are recorded in a log;
- a leaf operation standing for the checked argument. On its first visit
  it takes one name, declares one `__global <type>*` parameter and binds
  its matrix.

The "generated" set is a `set<object>`. Dafny's object identity plays the
role of the address identity the C++ set relies on. Module
`CheckReduction` gives the emitted reduction code a meaning. It runs over a
schedule of work-items and reads the status buffer back.

**`rep_matrix`** (`stan/math/prim/fun/rep_matrix.hpp`) is pure. It builds a
matrix filled with one scalar, or a row or column vector replicated `n`
times. Before that, it checks that each requested size is non-negative.
Matrices are a record of rows, columns and a row-major `seq<seq<T>>`, so a
0×n or m×0 shape keeps its other side.

## Model

| member | source | states |
|---|---|---|
| `KernelCheck.CheckCl.constructor` | stan/math/opencl/kernel_generator/check_cl.hpp:48-57 | the status buffer is a fresh 3×1 `int` matrix holding [0, 0, 0]; the value buffer is a fresh 1×1 matrix of the argument's element type, left unwritten; the node's rows and columns are the argument's |
| `KernelCheck.Check` | stan/math/opencl/kernel_generator/check_cl.hpp:170-176 | the factory wraps the matrix in a fresh operation and returns a fresh, valid check over it with the given message strings and the matrix's shape |
| `KernelCheck.CheckCl.GetKernelPartsLhs` | stan/math/opencl/kernel_generator/check_cl.hpp:70-92 | already generated: returns empty parts and changes neither the set, the name generator, nor any variable name. First visit: adds the node and its argument to the set and names the node with the generator's next name. The argument is named next, unless it was already generated. `args` declares the argument's parameters and then `<v>_buffer` (int) and `<v>_value`. `body` declares `bool <v>`. `reduction` is the guarded write of row, column and the argument's variable. Its guard compares with the streamed text of `AsWrittenGuard`, the constant the reduction semantics runs with |
| `KernelCheck.CheckCl.EmissionIsIdempotent` | stan/math/opencl/kernel_generator/check_cl.hpp:74-91 | a second emission with the set returned by the first yields empty parts. Over both calls, the generator issues exactly the names the first call needed: 0, 1 or 2 |
| `KernelCheck.CheckCl.SetArgs` | stan/math/opencl/kernel_generator/check_cl.hpp:102-110 | already generated: no binding, `arg_num` unchanged. First visit: the argument's buffers are bound first (unless already generated), then `buffer_`, then `value_`, at consecutive numbers; `arg_num` advances by exactly 2 beyond the argument's own advance |
| `KernelCheck.CheckCl.DeclaredMatchesBound` | stan/math/opencl/kernel_generator/check_cl.hpp:102-110 | what a first visit binds matches what it declares: same count, consecutive argument numbers, and the same element type at each position |
| `KernelCheck.CheckCl.EmitThenBind` | stan/math/opencl/kernel_generator/check_cl.hpp:70-110 | an emission pass and a binding pass, each started from an empty set, produce a parameter list and a binding log that match one for one. The parameters are exactly the argument's, then `<v>_buffer` and `<v>_value`. The log is exactly the argument's buffer, then `buffer_`, then `value_`, at consecutive numbers |
| `KernelCheck.OwnDeclaration` | stan/math/opencl/kernel_generator/check_cl.hpp:81-82 | the literal argument text the node appends declares exactly two parameters: `<v>_buffer` of type `int`, then `<v>_value` of the value type |
| `KernelCheck.CheckSizeMatch` | stan/math/opencl/kernel_generator/check_cl.hpp:120-124 | a size check passes iff the two sizes are equal; otherwise the error carries every argument, in the order `(function, expr_i, name_i, i, expr_j, name_j, j)` |
| `KernelCheck.CheckCl.CheckAssignDimensions` | stan/math/opencl/kernel_generator/check_cl.hpp:119-125 | passes iff the argument's rows and columns both equal the requested ones. A row mismatch is reported (as rows) whenever the rows differ, so before any column mismatch |
| `KernelCheck.CheckCl.Rows` | stan/math/opencl/kernel_generator/check_cl.hpp:150 | the node's row count is the argument's, and is non-negative |
| `KernelCheck.CheckCl.Cols` | stan/math/opencl/kernel_generator/check_cl.hpp:157 | the node's column count is the argument's, and is non-negative |
| `KernelCheck.CheckCl.AddWriteEvent` | stan/math/opencl/kernel_generator/check_cl.hpp:133-143 | raises a domain error iff the read-back flag `buffer[0]` is non-zero. The message starts with `<function>: <variable>[`. Next come exactly the streamed `buffer[1]`, `, ` and `buffer[2]`, which parse back to those two numbers. The message then ends with `] = <value>, but it must be <must_be>!`, where `<value>` is the formatted `value[0]`. Nothing else appears in between |
| `KernelCheck.FailureMessage` | stan/math/opencl/kernel_generator/check_cl.hpp:139-140 | the message text starts with the function/variable prefix, then carries exactly the two streamed indices, which parse back, and ends with `] = ` followed by the value text and the requirement, with nothing in between |
| `KernelCheck.ReportsDeterminesMessage` | stan/math/opencl/kernel_generator/check_cl.hpp:139-140 | a message satisfying the reporting contract is exactly `<function>: <variable>[<row>, <col>] = <value>, but it must be <must_be>!`, the one text the stream builds |
| `KernelCheck.ReportedIndicesOfText` | stan/math/opencl/kernel_generator/check_cl.hpp:139 | `<row>, <col>] = …` written by the stream parses back to exactly (row, col), whatever follows |
| `Decimal.IntToString` | stan/math/opencl/kernel_generator/check_cl.hpp:139 | an `int` written to a stream is non-empty: a leading `-` iff negative, digits otherwise, and no leading zero unless the number is 0 |
| `Decimal.ParseIntOfIntToString` | stan/math/opencl/kernel_generator/check_cl.hpp:139 | reading back the streamed text of any `int` gives that `int` |
| `KernelGen.NameGenerator.Generate` | stan/math/opencl/kernel_generator/check_cl.hpp:76 | each call advances the generator's count by one and returns the name for the new count |
| `KernelGen.FreshNameInjective` | stan/math/opencl/kernel_generator/check_cl.hpp:76 | names for different counts differ, so a generator never hands out a name twice |
| `KernelGen.MatrixCl.Fill` | stan/math/opencl/kernel_generator/check_cl.hpp:56 | every one of the rows×cols elements becomes the given value (`zeros()` is `Fill(0)`) |
| `KernelGen.Kernel.SetArg` | stan/math/opencl/kernel_generator/check_cl.hpp:107-108 | one binding (number, buffer, element type) is appended to the kernel's log |
| `KernelGen.Leaf.GetKernelParts` | stan/math/opencl/kernel_generator/check_cl.hpp:78-79 | the argument stand-in emits nothing if already generated; otherwise it joins the set, takes the next name and declares one parameter |
| `KernelGen.Leaf.SetArgs` | stan/math/opencl/kernel_generator/check_cl.hpp:106 | the argument stand-in binds nothing if already generated; otherwise it joins the set and binds its matrix at `arg_num`, advancing it by one |
| `CheckReduction.Step` | stan/math/opencl/kernel_generator/check_cl.hpp:84-89 | a passing item leaves the state unchanged. A failing item sets the flag to 1. It records its row, column and value only if the flag's previous value equals the guard; otherwise location and value are kept |
| `CheckReduction.Run` | stan/math/opencl/kernel_generator/check_cl.hpp:84-89 | the items of one schedule applied in order. The flag is never cleared: it ends as it started, or as 1 |
| `CheckReduction.AllOkLeavesState` | stan/math/opencl/kernel_generator/check_cl.hpp:84-89 | when every element of the checked expression is true, the reduction leaves the status and value buffers untouched, so the flag stays 0 and nothing is raised |
| `CheckReduction.FlagSetIffSomeFailure` | stan/math/opencl/kernel_generator/check_cl.hpp:84-85 | whatever the guard constant, the flag ends as 1 iff it already was 1 or some element is false |
| `CheckReduction.AsWrittenLosesSoleFailure` | stan/math/opencl/kernel_generator/check_cl.hpp:85 | with the guard as written (`== 1`), a single false element sets the flag but its row, column and value are never written: the status reads [1, 0, 0] |
| `CheckReduction.IntendedRecordsFirstFailure` | stan/math/opencl/kernel_generator/check_cl.hpp:84-89 | with the guard `== 0`, the status holds [1, row, col] and the value buffer the value, of the first false element in the schedule |
| `CheckReduction.ClaimedStaysPut` | stan/math/opencl/kernel_generator/check_cl.hpp:85 | once the flag is 1, the guard `== 0` never fires again, so a recorded failure is never overwritten |
| `CheckReduction.IntendedReportsAFailure` | stan/math/opencl/kernel_generator/check_cl.hpp:84-89 | with the guard `== 0`, when some element is false the reported row, column and value are those of a false element |
| `CheckReduction.IntendedReportsInShape` | stan/math/opencl/kernel_generator/check_cl.hpp:84-89 | with the guard `== 0`, the reported row and column lie within the checked shape |
| `CheckReduction.NaNVectorScenario` | stan/math/opencl/kernel_generator/check_cl.hpp:84-142 | the check "not NaN" over [1.0, NaN, 3.0] raises in both versions. As written, the message names element [0, 0]. With `== 0` it names [1, 0], and the message ends with `] = nan, but it must be <must_be>!` |
| `RepMatrix.RepMatrixAs` | stan/math/prim/fun/rep_matrix.hpp:21-28 | a negative `m` is an error named "rows"; otherwise a negative `n` is one named "cols". With both non-negative: an m×n matrix whose every entry is `x` converted to the result's scalar type |
| `RepMatrix.RepMatrix` | stan/math/prim/fun/rep_matrix.hpp:39-42 | the same errors; otherwise an m×n matrix of `x`'s own type whose every entry is `x` |
| `RepMatrix.RepVector` | stan/math/prim/fun/rep_matrix.hpp:52-78 | negative `n`: an error named "rows" for a row vector, "cols" for a column vector. Row vector of length k: n×k, entry (i, j) = x[j], every row is x. Column vector of length k: k×n, entry (i, j) = x[i], every column is x |
| `RepMatrix.RowIsTransposedColumn` | stan/math/prim/fun/rep_matrix.hpp:55-62 | replicating a row vector n times is the transpose of replicating the same elements as a column vector n times |
| `RepMatrix.ScalarIsReplicatedRow` | stan/math/prim/fun/rep_matrix.hpp:24-58 | for n ≥ 0, `rep_matrix(x, m, n)` equals the constant row of n copies of x replicated m times, errors included |

`CheckCl.Rows` and `CheckCl.Cols` return the argument's rows and columns
(check_cl.hpp:150, 157). The constructor, the factory and
`CheckAssignDimensions` state what they promise. The right-hand-side
`get_kernel_parts` is deleted in the source (check_cl.hpp:60), so the model
offers no right-hand-side emission for this node.

## Findings

| source | as written | input that shows it | evidently intended | confidence | as-written member | corrected member |
|---|---|---|---|---|---|---|
| stan/math/opencl/kernel_generator/check_cl.hpp:85 | the reduction records a failure only when `atomic_xchg(<v>_buffer, 1)` returns 1, that is, when the flag was already set | a check "not NaN" over [1.0, NaN, 3.0]: the one failing work-item sets the flag but records nothing, so the error names element [0, 0] and prints the unwritten value buffer | compare with 0: the work-item that claims the flag records its row, column and value | high (not executed) | `CheckReduction.AsWrittenLosesSoleFailure` | `CheckReduction.IntendedRecordsFirstFailure` |

The emitted text in `GetKernelPartsLhs` keeps the guard exactly as written.
Its contract states the guard as the streamed text of `AsWrittenGuard`, so
the emitted code and its semantics share one constant.
The reduction semantics takes the guard constant as a parameter. The
properties of a reported failure (`IntendedReportsAFailure`,
`IntendedReportsInShape`) are proved for the corrected constant.

## Left out

- Device-side execution is not modelled: the `atomic_xchg` race between work-items, `e.wait()`, the `from_matrix_cl` copies back to the host, and the device effect of `cl::Kernel::setArg`. The status buffer read back after the wait is an input of `AddWriteEvent`. `setArg` appends to a log.
- The reduction semantics runs work-items one after another, each guarded block as a whole. Interleavings inside a block (two items writing `buffer[1]` at once) are not modelled.
- Stream formatting of the `double` in `value_[0]` is floating-point text formatting; the model takes the value as already-formatted text.
- `operation_cl_lhs`, `name_generator`, `kernel_parts`, `type_str` and the `results(...) = expressions(...)` orchestrator are not part of this model. Only the stand-ins in `KernelGen` are defined. They do nothing beyond what is described above.
- `kernel_parts` has only the three fragments this node writes: `args`, `body` and `reduction`.
- The leaf stand-in ignores the constant `false` passed to `get_kernel_parts` at check_cl.hpp:79.
- The checked argument is always a single leaf operation, not an arbitrary expression graph.
- `check_size_match` and `check_nonnegative` are modelled by the data they raise, not by their message texts, which are not part of this model.
- The compile-time requirements (`require_all_kernel_expressions_and_none_scalar_t`, `require_eigen_matrix_dynamic_vt`, `require_eigen_vector_t`, `require_vector_t`) become Dafny's types and the vector's orientation tag.
- `rep_matrix` returns a lazy Eigen `Constant` or `Replicate` expression. The model returns the matrix it evaluates to. The explicit-`Ret` vector overload returns `x.replicate(...)` whatever `Ret` is, so one function models both vector overloads.
- Sizes are unbounded integers. `m` and `n` are never used in arithmetic, so 32-bit wrap-around plays no part. Allocation failure for very large sizes is not modelled.
- `stan/math/prim/meta/is_vector.hpp` and `is_fvar.hpp` are compile-time traits with no runtime behaviour.
- `bernoulli_logit_glm_lpmf.hpp`, `cauchy_lcdf.hpp` and the `log1p_exp` device function are floating-point computations built on kernel launches and autodiff, so they are left out. `cauchy_lcdf.hpp` is only a caller of `check_cl`.
- The unit tests `lb_transform_test.cpp` and `log1m_inv_logit_test.cpp` exercise floating-point transforms whose implementations are not part of this model.
