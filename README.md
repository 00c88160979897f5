# casadi rootfinder and NLP-solver core, modelled in Dafny

This project models two nodes of casadi's symbolic framework and proves properties
of the models.

**The rootfinder node.** It defines an unknown `z` implicitly by `F(z, p) = 0`.
Input `iin` of the residual function `F` (the oracle) holds the initial guess for `z`, and output `iout` holds the residual.
The model covers:
- option reading and validation in `init`, and the work size `init` requests;
- `set_work`;
- the two structural (bitwise dependency) sweeps `sp_fwd` and `sp_rev`, over a flat word memory:
  - the caller's pointer arrays are arrays of nullable addresses;
  - `tmp1` and `tmp2` are the first `2n` words of the work vector;
- the symbolic derivative rules `forward` and `reverse` (implicit function theorem), over an abstract expression type;
- the derivative-function builders `get_forward` and `get_reverse`.

The oracle, the Jacobian's sparsity pattern with its structural solve, and the symbolic expression operations are opaque function values.
Their only constraints are on the shapes of what they return.

**The NLP solver base node.** The model covers:
- `init`: the NLP's arity check, the problem dimensions, and the default input and output buffers;
- `defaultInput`;
- the bound validators `checkInitialBounds` and `checkInputs`;
- the lazily generated and cached derivative functions `gradF`, `jacF`, `jacG`, `gradLag` and `hessLag`, and the Hessian sparsity `spHessLag`.

Doubles are extended reals here (`NegInf | Fin(r) | PosInf`), since these functions only compare them.

Files:
- `wrappers.dfy`: Option, Outcome and Result.
- `flat_memory.dfy`: the word memory, buffers behind pointer slots, and store and load.
- `oracle.dfy`: the collaborators' interfaces, and the oracle's structural calls.
- `implicit_ad.dfy`: reference definitions of the symbolic forward and reverse rules, with their properties.
- `rootfinder.dfy`: the rootfinder node.
- `nlp_solver.dfy`: the NLP solver node.

## Model

| member | source | states |
|---|---|---|
| Rootfinder.Rootfinder.constructor | casadi/core/function/rootfinder.cpp:63-69 | A new node has the unknown at input 0, the residual at output 0, no constraints and no Jacobian pattern, and it is not initialised |
| Rootfinder.ReadOptionsLastWins | casadi/core/function/rootfinder.cpp:105-120 | For each of implicit_input, implicit_output, jacobian_function and constraints, the last entry of that kind in the option list decides the setting |
| Rootfinder.ReadOptionsKeeps | casadi/core/function/rootfinder.cpp:105-120 | A setting that no option entry names keeps its previous value; linear-solver options change no setting |
| Rootfinder.Validate | casadi/core/function/rootfinder.cpp:122-167 | Succeeds iff the configuration is well posed. Each failure is the first violated check, in source order: input index, output index, dense residual column, dense unknown column, equal sizes, structural non-singularity, constraint length. On success, n is the residual's nonzero count and the work size is max(oracle, Jacobian) + 2n |
| Rootfinder.Rootfinder.Init | casadi/core/function/rootfinder.cpp:98-168 | The fields equal the options read in order, and the outcome is exactly Validate's. On success the node is Valid() with n, the Jacobian function registered as `jac_f_z` (the user-supplied one, else the generated one), its pattern and the work size set. On failure it is not ready |
| Rootfinder.Rootfinder.SetWork | casadi/core/function/rootfinder.cpp:184-194 | The memory object records where the input and output pointer arrays start, and both positions advance past n_in and n_out slots |
| Rootfinder.Rootfinder.Net | casadi/core/function/rootfinder.cpp:251-255 | What the structural sweeps use of an initialised node (indices, sizes, n, pattern) is the node's own state, and it satisfies NodeOk when the collaborators keep their shapes |
| Rootfinder.SpFwd | casadi/core/function/rootfinder.cpp:251-278 | After sp_fwd: tmp1 holds the residual's dependencies (guess input null); tmp2 and the residual's buffer hold the structural solve of tmp1; with auxiliary outputs, each of their buffers holds the oracle's dependencies with the unknown redirected to tmp2. The pointer arrays' second halves are as the source leaves them, the first halves are untouched, and no word outside tmp1, tmp2 and the output buffers changes |
| Rootfinder.FwdResidualPass | casadi/core/function/rootfinder.cpp:257-264 | The first oracle call gets the inputs with the guess slot null and one output slot, iout, pointing at tmp1; memory changes exactly as that call writes |
| Rootfinder.SolveInto | casadi/core/function/rootfinder.cpp:266-268 | tmp2 is zeroed and then receives the structural solve of tmp1 (transposed or not); nothing else changes |
| Rootfinder.FwdAuxPass | casadi/core/function/rootfinder.cpp:271-277 | The second forward call gets the inputs with the guess slot redirected to tmp2 and the caller's outputs with the residual slot null |
| Rootfinder.SpFwdMemoryEffect | casadi/core/function/rootfinder.cpp:251-278 | The composed memory effect of sp_fwd's steps, region by region, with the frame outside tmp1, tmp2 and the output buffers |
| Rootfinder.FwdRootEffect | casadi/core/function/rootfinder.cpp:266-269 | The residual's buffer receives a copy of tmp2 only when it is non-null, and the inputs' buffers are untouched by the solve and the copy |
| Rootfinder.SpRev | casadi/core/function/rootfinder.cpp:280-314 | The final memory is SpRevMemory, the composition of the seed move, the auxiliary pass, the transposed solve and the final pass, for any input pointers, aliased ones included. When the input buffers are pairwise apart, the effect region by region: tmp1 holds the residual's seed, plus the unknown's part from the auxiliary outputs when there are any; tmp2 holds its transposed structural solve. Every true input's buffer holds what the final reverse call (seeded by tmp2 alone, guess null) gives it. The guess input's buffer keeps its contents, the residual's seed buffer is cleared, and the auxiliary outputs' buffers hold what the auxiliary pass left. The pointer arrays' second halves are as the source leaves them, and no word outside tmp1, tmp2 and the caller's buffers changes |
| Rootfinder.RevTakeSeed | casadi/core/function/rootfinder.cpp:286-292 | A non-null residual seed is moved into tmp1 and its buffer zeroed; otherwise tmp1 is zeroed |
| Rootfinder.RevAuxPass | casadi/core/function/rootfinder.cpp:294-303 | The pointer halves become the inputs with the guess slot at tmp1 and the outputs with the residual slot null; the auxiliary reverse call happens iff there is more than one output |
| Rootfinder.RevMainPass | casadi/core/function/rootfinder.cpp:309-313 | Every output slot is null except the residual's, which is tmp2; the guess slot is null; memory changes exactly as that reverse call writes |
| Rootfinder.RevPrepare | casadi/core/function/rootfinder.cpp:286-303 | The steps before the solve compose to the memory the reverse specification describes |
| Rootfinder.RevBeforeSolveEffect | casadi/core/function/rootfinder.cpp:286-303 | Before the solve: tmp1 is the right-hand side (seed plus auxiliary contribution); the inputs' buffers, guess aside, are what the final call will see; the residual's buffer is zero |
| Rootfinder.RevMainWritten | casadi/core/function/rootfinder.cpp:305-313 | After the transposed solve and the final call, tmp2 holds the multipliers and every true input's buffer what the final reverse call gives it |
| Rootfinder.RevMainKept | casadi/core/function/rootfinder.cpp:305-313 | The same steps leave tmp1, the guess input's buffer, every output buffer and every word outside the inputs' buffers and tmp2 as they were before the solve |
| Rootfinder.SpRevMemoryEffect | casadi/core/function/rootfinder.cpp:280-314 | The composed memory effect of sp_rev's steps, region by region, with the frame outside tmp1, tmp2 and the caller's buffers |
| Oracle.CallFwd | casadi/core/function/rootfinder.cpp:264 | A forward structural oracle call writes exactly the non-null output buffers, from the contents of the non-null input buffers |
| Oracle.CallRev | casadi/core/function/rootfinder.cpp:302 | A reverse structural oracle call rewrites exactly the non-null input and output buffers |
| Rootfinder.Forward | casadi/core/function/rootfinder.cpp:320-360 | The sensitivities the method builds step by step are ForwardSpec's: no directions give no result; otherwise the oracle is evaluated at the root with zero guess seeds, the residual's sensitivities are solved without transposing, and with auxiliary outputs a second pass follows whose root entries are restored |
| Rootfinder.Reverse | casadi/core/function/rootfinder.cpp:362-436 | The sensitivities the method builds are ReverseSpec's: auxiliary pass with the residual seed zeroed, transposed solve of the negated right-hand sides, main pass seeded on the residual alone, guess entry restored, auxiliary contributions added to every other input |
| Rootfinder.MultiplierSeeds | casadi/core/function/rootfinder.cpp:404-413 | The main pass's seed table is ResidualSeeds: in every direction the multiplier at the residual and a structural zero at every other output |
| ImplicitAD.ResidualSeeds | casadi/core/function/rootfinder.cpp:404-413 | One row per multiplier direction, n_out entries each: the multiplier at iout and the output's structural zero everywhere else |
| Rootfinder.PriorSens | casadi/core/function/rootfinder.cpp:415-420 | The caller's sensitivity table resized to nadj directions of n_in entries, and the guess entry kept aside (a zero when empty) |
| Rootfinder.AddAux | casadi/core/function/rootfinder.cpp:430-435 | Every entry except the guess's receives the auxiliary pass's contribution |
| Rootfinder.Rootfinder.GetForward | casadi/core/function/rootfinder.cpp:197-221 | The derivative function is the Signature of the node's inputs with the guess replaced by a fresh symbol, its outputs, one concatenated seed per input, and one concatenated ForwardSpec sensitivity per output, with the Jacobian evaluated through the registered `jac_f_z` |
| Rootfinder.ForwardDerivative | casadi/core/function/rootfinder.cpp:197-221 | The same signature, built from the symbols, the oracle and the requested number of directions |
| Rootfinder.Rootfinder.GetReverse | casadi/core/function/rootfinder.cpp:224-248 | The derivative function is the Signature of the inputs with the fresh guess, the outputs, one concatenated adjoint seed per output, and one concatenated ReverseSpec sensitivity per input, with the Jacobian evaluated through the registered `jac_f_z`. With no prior sensitivities, the output for the guess is the horzcat of the guess's structural zero in every direction |
| Rootfinder.ReverseDerivative | casadi/core/function/rootfinder.cpp:224-248 | The same signature, built from the symbols, the oracle and the requested number of adjoint directions, with the guess's output the horzcat of structural zeros |
| Rootfinder.Signature | casadi/core/function/rootfinder.cpp:209-220 | The input list starts with the arguments, then the results, then one horzcat of each seed column; the output list is one horzcat of each sensitivity column |
| Rootfinder.DerivativeSignature | casadi/core/function/rootfinder.cpp:209-220 | The lists the loops append to are exactly Signature's |
| ImplicitAD.ForwardSpec | casadi/core/function/rootfinder.cpp:320-360 | One sensitivity vector per direction, each with one entry per output |
| ImplicitAD.ForwardRootSens | casadi/core/function/rootfinder.cpp:347-358 | Every direction's residual entry is the solved root sensitivity, even after the auxiliary pass overwrites it |
| ImplicitAD.ForwardSingleOutput | casadi/core/function/rootfinder.cpp:347-355 | With one output there is no second pass, and each direction's result is the root sensitivity alone |
| ImplicitAD.ForwardAuxiliary | casadi/core/function/rootfinder.cpp:353-358 | An auxiliary output's sensitivity comes from the second pass, whose guess seeds are the root sensitivities |
| ImplicitAD.ForwardIgnoresGuessSeed | casadi/core/function/rootfinder.cpp:337-340 | Seeds on the guess input have no effect on any forward sensitivity |
| ImplicitAD.ForwardIgnoresGuessValue | casadi/core/function/rootfinder.cpp:333-334 | The guess's value has no effect: the derivative is taken at the root |
| ImplicitAD.ReverseSpec | casadi/core/function/rootfinder.cpp:362-436 | One sensitivity vector per direction, each with one entry per input |
| ImplicitAD.ReverseGuessSens | casadi/core/function/rootfinder.cpp:415-428 | The guess's sensitivity is what the caller had, or a structural zero when that was empty: no sensitivity flows to the guess |
| ImplicitAD.ReverseGuessSensZero | casadi/core/function/rootfinder.cpp:415-428 | With no prior sensitivities, as get_reverse passes them, the guess's entry is the structural zero in every direction |
| ImplicitAD.ReverseTrueInputs | casadi/core/function/rootfinder.cpp:422-435 | Every other input receives the main pass's sensitivity, plus the auxiliary contribution exactly when there are auxiliary outputs |
| ImplicitAD.ReverseIgnoresGuessValue | casadi/core/function/rootfinder.cpp:376-377 | The guess's value has no effect on any adjoint sensitivity |
| ImplicitAD.AuxPassIgnoresResidualSeed | casadi/core/function/rootfinder.cpp:384-396 | The residual's own seed never reaches the auxiliary pass |
| NlpSolver.DefaultInput | casadi/core/function/nlp_solver_internal.cpp:486-497 | -inf exactly for LBX and LBG, +inf exactly for UBX and UBG, zero for every other input |
| NlpSolver.NlpSolverInternal.constructor | casadi/core/function/nlp_solver_internal.cpp:37-38 | A new solver keeps its NLP and options, and every lazily generated function is null |
| NlpSolver.NlpSolverInternal.Init | casadi/core/function/nlp_solver_internal.cpp:102-138 | Succeeds iff the NLP has 2 inputs and 2 outputs, failing on the input count first. On success nx, np and ng are the nonzero counts of x, p and g, every input buffer is defaultInput at its pattern's length, and every output buffer is zero. On failure nothing changes |
| NlpSolver.InitialInputsAreDefaults | casadi/core/function/nlp_solver_internal.cpp:119-128 | The input buffers init writes are exactly defaultInput of each input, at the length of x, p or g |
| NlpSolver.InitialOutputsAreZero | casadi/core/function/nlp_solver_internal.cpp:130-137 | The output buffers init writes are zeros at the length of x, p or g, and the objective is a scalar |
| NlpSolver.NlpSolverInternal.CheckInitialBounds | casadi/core/function/nlp_solver_internal.cpp:187-212 | Fails with the x error iff some i < nx has lbx = +inf, lbx > ubx or ubx = -inf. Fails with the g error iff the x bounds pass and the same holds for some i < ng. A warning is issued iff the check passes, the option is set, and some x0[k] lies outside its bounds |
| NlpSolver.NlpSolverInternal.CheckInputs | casadi/core/function/nlp_solver_internal.cpp:456-469 | Passes iff lbx[i] <= ubx[i] and lbg[i] <= ubg[i] for every i. A failure names the first violating index (x before g) and its two bounds |
| NlpSolver.DefaultBoundsWellPosed | casadi/core/function/nlp_solver_internal.cpp:121-125 | The default bounds pass both validators at any dimensions |
| NlpSolver.WellPosedIsOrdered | casadi/core/function/nlp_solver_internal.cpp:196-204 | Bounds that pass checkInitialBounds pass checkInputs |
| NlpSolver.OrderedNotWellPosed | casadi/core/function/nlp_solver_internal.cpp:457-462 | The converse fails: lbx = ubx = +inf passes checkInputs but is ill-posed for checkInitialBounds |
| NlpSolver.NlpSolverInternal.GetGradF | casadi/core/function/nlp_solver_internal.cpp:273-304 | The user's grad_f if set, else the NLP's objective gradient, accepted only with 2 inputs and 3 outputs |
| NlpSolver.NlpSolverInternal.GetJacF | casadi/core/function/nlp_solver_internal.cpp:240-271 | The user's jac_f if set, else the objective Jacobian, with the same gradient arity check |
| NlpSolver.NlpSolverInternal.GetJacG | casadi/core/function/nlp_solver_internal.cpp:313-348 | Null when ng = 0, whatever the options; otherwise the user's jac_g or the constraint Jacobian, accepted only with 2 inputs and 3 outputs |
| NlpSolver.NlpSolverInternal.GetGradLag | casadi/core/function/nlp_solver_internal.cpp:357-381 | The user's grad_lag if set, else derivative(0, 1); no arity check |
| NlpSolver.NlpSolverInternal.GetHessLag | casadi/core/function/nlp_solver_internal.cpp:390-424 | The user's hess_lag if set (the Lagrangian gradient untouched), else the Hessian of the lazily generated Lagrangian gradient, accepted only with 4 inputs and 5 outputs |
| NlpSolver.NlpSolverInternal.GradF | casadi/core/function/nlp_solver_internal.cpp:226-231 | A cached function is returned unchanged; otherwise the generated one is returned and cached if it passes its checks |
| NlpSolver.NlpSolverInternal.JacF | casadi/core/function/nlp_solver_internal.cpp:233-238 | Same caching as gradF, for the objective Jacobian |
| NlpSolver.NlpSolverInternal.JacG | casadi/core/function/nlp_solver_internal.cpp:306-317 | Same caching, except that with no constraints the null handle is returned and the cache stays empty |
| NlpSolver.NlpSolverInternal.GradLag | casadi/core/function/nlp_solver_internal.cpp:350-355 | Generated on the first call, then returned from the cache |
| NlpSolver.NlpSolverInternal.HessLag | casadi/core/function/nlp_solver_internal.cpp:383-388 | Cached after the first success. Generating it caches the Lagrangian gradient iff no hess_lag is set |
| NlpSolver.NlpSolverInternal.SpHessLag | casadi/core/function/nlp_solver_internal.cpp:426-454 | The Jacobian sparsity of the (lazily generated, then cached) Lagrangian gradient, generated once and then cached |

## Left out

- Plugin registry and dispatch (`solvers_`, `infix_`, loading and documenting plugins): global maps and dynamic loading.
- The numeric root finding behind `eval`, and the linear solver's construction and `reset`: external solvers with floating-point behaviour. The `linear_solver` and `linear_solver_options` options are read but change no setting in the model.
- `OracleFunction::init`, `alloc(oracle_)` and `set_function`: base-class bookkeeping. `alloc_w` is modelled as the single size the node requests, not the running maximum the base class keeps.
- Internals of the oracle, of `jacobian()`, of `Sparsity::spsolve`, of `is_singular` and `sprank`, and of `getSolve`, `horzcat`, `horzsplit`, `vec` and `reshape`: these are opaque function values. `vec` and `reshape` are the identity, and `horzsplit(getSolve(-horzcat(rhs)))` is one batched solve of the negated columns.
- Rootfinder.SolveInto: the structural solve writes tmp2 only; its right-hand side tmp1 is assumed unchanged, because `Sparsity::spsolve` is not part of this model.
- Rootfinder.SpFwd, Rootfinder.SpRev: the oracle's own workspace (`iw`, and `w` past the first 2n words) is not modelled. Each oracle call reads and writes only the buffers behind its pointer slots.
- Rootfinder.SpFwd, Rootfinder.SpRev: the oracle's pointer-array scratch is not modelled either. The callee gets `arg + n_in` and `res + n_out` and may use the slots past its own n_in and n_out. The model's oracle calls write memory only, so the claims that `arg[2 n_in..]` and `res[2 n_out..]` are unchanged hold under that abstraction only.
- Rootfinder.SpFwd, Rootfinder.SpRev: the buffer layout is assumed (`Layout`). The output buffers are pairwise apart, every input buffer is apart from every output buffer, and all of them avoid tmp1 and tmp2. Aliased outputs, or an input sharing a buffer with an output, are not covered.
- Rootfinder.SpRev: its region-by-region effect is stated only when the input buffers are pairwise apart. With two inputs on one buffer (one symbol passed twice) the final memory is still stated as the composition of the steps, but not region by region, because both slots write the shared buffer and the later write hides the earlier one.
- Rootfinder.Rootfinder.GetForward, Rootfinder.Rootfinder.GetReverse: outputs are stated at the argument list that includes the guess symbol, as the source passes it. Independence from the guess is the separate lemmas ForwardIgnoresGuessValue and ReverseIgnoresGuessValue. The returned `Function` is its input and output lists; names and options are not modelled.
- The `constraints` values are only length-checked, as in `init`; their meaning belongs to the numeric solvers.
- NaN semantics of the bound comparisons.
- NlpSolver.DefaultInput: it takes the input enumeration rather than an `int`. The source's zero for an index outside the enumeration has no counterpart.
- The numeric values of the enumerations and of the GradF, JacG and HessLag scheme sizes come from casadi headers that are not part of this model. The sizes used are those schemes' entry counts.
- NLP `init`: `nlp_.init`, the base-class `init`, timing and `verbose_init` output, the `expand` MX-to-SX conversion, the `iteration_callback` consistency checks and the `iteration_callback_step` and `eval_errors_fatal` options. These are library wrappers and option plumbing.
- NLP getters: logging, timing statistics, `*_options` forwarding, `init(false)` on the generated function, and the input and output scheme names. These are option plumbing and I/O.
- `reportConstraints` (stream output), and `getReducedHessian` and `setOptionsFromFile` (they only raise errors).
- Error messages are error values; their text is not modelled.
