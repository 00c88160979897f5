/**
 * The problem-independent part of casadi's NLP solver node: it checks the NLP's
 * arity, sizes and fills the default input and output buffers, validates the bound
 * vectors before a solve, and generates the derivative functions a plugin asks for
 * lazily, caching each one.
 *
 * Doubles are compared but never combined here, so a value is an extended real.
 * Functions and sparsity patterns the node generates or receives are opaque values.
 */
module NlpSolver {
  import opened Wrappers

  /** A double as the bound checks see it: finite, or one of the two infinities. */
  datatype Ext = NegInf | Fin(v: real) | PosInf

  /** `a < b` on doubles (NaN is not modelled). */
  predicate Less(a: Ext, b: Ext) {
    match (a, b)
    case (NegInf, NegInf) => false
    case (NegInf, _) => true
    case (Fin(x), Fin(y)) => x < y
    case (Fin(_), PosInf) => true
    case (_, _) => false
  }

  /** `a <= b` on doubles. */
  predicate LessEq(a: Ext, b: Ext) {
    !Less(b, a)
  }

  /** `n` copies of `v`: a dense buffer with every entry `v`. */
  function Filled(n: nat, v: Ext): (r: seq<Ext>)
    ensures |r| == n && forall i :: 0 <= i < n ==> r[i] == v
  {
    seq(n, _ => v)
  }

  /** The solver's inputs (`NLP_SOLVER_X0` ... `NLP_SOLVER_LAM_G0`). */
  datatype SolverInput = X0 | P | LBX | UBX | LBG | UBG | LAM_X0 | LAM_G0

  /** The solver's outputs (`NLP_SOLVER_X` ... `NLP_SOLVER_G`). */
  datatype SolverOutput = X | F | G | LAM_X | LAM_G | LAM_P

  /** Number of inputs and outputs the NLP function must have (x, p) -> (f, g). */
  const NL_NUM_IN: nat := 2
  const NL_NUM_OUT: nat := 2
  /** Arity of a gradient or objective-Jacobian function: (x, p) -> (grad, f, g). */
  const GRADF_NUM_IN: nat := 2
  const GRADF_NUM_OUT: nat := 3
  /** Arity of a constraint-Jacobian function: (x, p) -> (jac, f, g). */
  const JACG_NUM_IN: nat := 2
  const JACG_NUM_OUT: nat := 3
  /** Arity of a Lagrangian-Hessian function: (x, p, lam_f, lam_g) -> (hess, f, g, grad_x, grad_p). */
  const HESSLAG_NUM_IN: nat := 4
  const HESSLAG_NUM_OUT: nat := 5

  /**
   * `defaultInput`: the value an input takes when the user sets none — minus infinity
   * for the lower bounds, plus infinity for the upper bounds, zero otherwise.
   */
  function DefaultInput(s: SolverInput): (v: Ext)
    ensures v.NegInf? <==> s == LBX || s == LBG
    ensures v.PosInf? <==> s == UBX || s == UBG
    ensures v.Fin? ==> v.v == 0.0
  {
    match s
    case LBX | LBG => NegInf
    case UBX | UBG => PosInf
    case _ => Fin(0.0)
  }

  /** The length of an input buffer: its pattern is that of x, p or g. */
  function InputSize(s: SolverInput, nx: nat, np: nat, ng: nat): nat {
    match s
    case X0 | LBX | UBX | LAM_X0 => nx
    case P => np
    case LBG | UBG | LAM_G0 => ng
  }

  /** The length of an output buffer: the objective is a scalar. */
  function OutputSize(s: SolverOutput, nx: nat, np: nat, ng: nat): nat {
    match s
    case X | LAM_X => nx
    case F => 1
    case G | LAM_G => ng
    case LAM_P => np
  }

  /** A sparsity pattern, as far as this node uses it. */
  datatype Pattern = Pattern(rows: nat, cols: nat, nnz: nat)

  /** A function object: which one it is, and its numbers of inputs and outputs. */
  datatype Fn = Fn(id: nat, nIn: nat, nOut: nat)

  /**
   * The NLP function and what it can generate: the patterns of x, p and g, the
   * objective gradient and Jacobian and the constraint Jacobian with respect to x, the
   * Lagrangian gradient (`derivative(0, 1)`), and, for a Lagrangian gradient, the
   * Hessian function and its sparsity (its Jacobian with respect to x).
   */
  datatype Nlp = Nlp(
    nIn: nat, nOut: nat,
    x: Pattern, p: Pattern, g: Pattern,
    gradient: Fn, jacobianF: Fn, jacobianG: Fn, derivative: Fn,
    hessianOf: Fn -> Fn, hessSparsityOf: Fn -> Pattern)

  /** User-supplied derivative functions (`grad_f`, `jac_f`, `jac_g`, `grad_lag`,
      `hess_lag`) and the `warn_initial_bounds` option. */
  datatype NlpOptions = NlpOptions(
    gradF: Option<Fn>, jacF: Option<Fn>, jacG: Option<Fn>, gradLag: Option<Fn>, hessLag: Option<Fn>,
    warnInitialBounds: bool)

  datatype InitError = WrongInputCount(got: nat) | WrongOutputCount(got: nat)

  /** Which generated function failed its arity check. */
  datatype FnKind = GradientF | JacobianF | JacobianG | HessianLag

  datatype GetterError = WrongFnInputs(kind: FnKind, got: nat) | WrongFnOutputs(kind: FnKind, got: nat)

  /** The two ill-posedness errors of `checkInitialBounds`. */
  datatype BoundsError = IllPosedX | IllPosedG

  /** The errors of `checkInputs`, naming the first offending index and its two bounds. */
  datatype InputError = LbxAboveUbx(i: nat, lb: Ext, ub: Ext) | LbgAboveUbg(i: nat, lb: Ext, ub: Ext)

  /** A bound pair no point can satisfy: the lower bound is +inf, the upper bound -inf,
      or the lower bound exceeds the upper. */
  predicate Conflict(lb: Ext, ub: Ext) {
    lb == PosInf || Less(ub, lb) || ub == NegInf
  }

  /** Some pair among the first `count` conflicts. */
  predicate IllPosed(lb: seq<Ext>, ub: seq<Ext>, count: nat)
    requires count <= |lb| && count <= |ub|
  {
    exists i :: 0 <= i < count && Conflict(lb[i], ub[i])
  }

  /** Some entry of the initial guess lies outside its bounds. */
  predicate GuessOutside(x0: seq<Ext>, lb: seq<Ext>, ub: seq<Ext>, count: nat)
    requires count <= |x0| && count <= |lb| && count <= |ub|
  {
    exists k :: 0 <= k < count && (Less(ub[k], x0[k]) || Less(x0[k], lb[k]))
  }

  /** Every lower bound is at most its upper bound. */
  predicate Ordered(lb: seq<Ext>, ub: seq<Ext>)
    requires |lb| <= |ub|
  {
    forall i :: 0 <= i < |lb| ==> LessEq(lb[i], ub[i])
  }

  /** A generated or user-supplied function, accepted only with the expected arity. */
  function Checked(f: Fn, kind: FnKind, nIn: nat, nOut: nat): (r: Result<Fn, GetterError>)
    ensures r.Success? <==> f.nIn == nIn && f.nOut == nOut
    ensures r.Success? ==> r.value == f
    ensures r.Failure? ==> r.error == if f.nIn != nIn then WrongFnInputs(kind, f.nIn) else WrongFnOutputs(kind, f.nOut)
  {
    if f.nIn != nIn then Failure(WrongFnInputs(kind, f.nIn))
    else if f.nOut != nOut then Failure(WrongFnOutputs(kind, f.nOut))
    else Success(f)
  }

  /** The user's function when one is set, otherwise the generated one. */
  function Preferred(user: Option<Fn>, generated: Fn): (f: Fn)
    ensures user.Some? ==> f == user.value
    ensures user.None? ==> f == generated
  {
    if user.Some? then user.value else generated
  }

  /** A null handle is not cached: only a success fills the cache. */
  function Cached(r: Result<Fn, GetterError>): (c: Option<Fn>)
    ensures c.Some? <==> r.Success?
    ensures c.Some? ==> c.value == r.value
  {
    if r.Success? then Some(r.value) else None
  }

  /** The input buffers `init` allocates: zero initial guesses, multipliers and
      parameters, infinite bounds. */
  function InitialInputs(nx: nat, np: nat, ng: nat): map<SolverInput, seq<Ext>> {
    map[
      X0 := Filled(nx, Fin(0.0)),
      LBX := Filled(nx, NegInf),
      UBX := Filled(nx, PosInf),
      LBG := Filled(ng, NegInf),
      UBG := Filled(ng, PosInf),
      LAM_X0 := Filled(nx, Fin(0.0)),
      LAM_G0 := Filled(ng, Fin(0.0)),
      P := Filled(np, Fin(0.0))]
  }

  /** The output buffers `init` allocates, all zero. */
  function InitialOutputs(nx: nat, np: nat, ng: nat): map<SolverOutput, seq<Ext>> {
    map[
      X := Filled(nx, Fin(0.0)),
      F := Filled(1, Fin(0.0)),
      LAM_X := Filled(nx, Fin(0.0)),
      LAM_G := Filled(ng, Fin(0.0)),
      LAM_P := Filled(np, Fin(0.0)),
      G := Filled(ng, Fin(0.0))]
  }

  /** `init` fills every input with `defaultInput`, at the length of its pattern. */
  lemma InitialInputsAreDefaults(nx: nat, np: nat, ng: nat)
    ensures forall s: SolverInput ::
      s in InitialInputs(nx, np, ng) && InitialInputs(nx, np, ng)[s] == Filled(InputSize(s, nx, np, ng), DefaultInput(s))
  {
    forall s: SolverInput ensures s in InitialInputs(nx, np, ng) &&
      InitialInputs(nx, np, ng)[s] == Filled(InputSize(s, nx, np, ng), DefaultInput(s)) {
      match s
      case X0 => case P => case LBX => case UBX => case LBG => case UBG => case LAM_X0 => case LAM_G0 =>
    }
  }

  /** `init` zeroes every output, at the length of its pattern. */
  lemma InitialOutputsAreZero(nx: nat, np: nat, ng: nat)
    ensures forall s: SolverOutput ::
      s in InitialOutputs(nx, np, ng) && InitialOutputs(nx, np, ng)[s] == Filled(OutputSize(s, nx, np, ng), Fin(0.0))
  {
    forall s: SolverOutput ensures s in InitialOutputs(nx, np, ng) &&
      InitialOutputs(nx, np, ng)[s] == Filled(OutputSize(s, nx, np, ng), Fin(0.0)) {
      match s
      case X => case F => case G => case LAM_X => case LAM_G => case LAM_P =>
    }
  }

  class NlpSolverInternal {
    /** `nlp_`: the NLP function. */
    const nlp: Nlp
    const opts: NlpOptions
    /** `nx_`, `np_`, `ng_`: numbers of variables, parameters and constraints. */
    var nx: nat
    var np: nat
    var ng: nat
    /** `ibuf_`/`obuf_`: the input and output buffers. */
    var ibuf: map<SolverInput, seq<Ext>>
    var obuf: map<SolverOutput, seq<Ext>>
    /** `init` has completed. */
    var ready: bool
    /** The lazily generated functions (`gradF_`, `jacF_`, `jacG_`, `gradLag_`,
        `hessLag_`) and pattern (`spHessLag_`); `None` is a null handle. */
    var gradFCache: Option<Fn>
    var jacFCache: Option<Fn>
    var jacGCache: Option<Fn>
    var gradLagCache: Option<Fn>
    var hessLagCache: Option<Fn>
    var spHessLagCache: Option<Pattern>

    /** After `init`: every buffer exists with the length its pattern gives. */
    ghost predicate Valid()
      reads this
    {
      ready &&
      (forall s: SolverInput :: s in ibuf && |ibuf[s]| == InputSize(s, nx, np, ng)) &&
      (forall s: SolverOutput :: s in obuf && |obuf[s]| == OutputSize(s, nx, np, ng))
    }

    constructor (nlp: Nlp, opts: NlpOptions)
      ensures this.nlp == nlp && this.opts == opts && !ready
      ensures gradFCache == jacFCache == jacGCache == gradLagCache == hessLagCache == None
      ensures spHessLagCache == None
    {
      this.nlp := nlp;
      this.opts := opts;
      nx, np, ng := 0, 0, 0;
      ibuf := map[];
      obuf := map[];
      ready := false;
      gradFCache, jacFCache, jacGCache, gradLagCache, hessLagCache := None, None, None, None, None;
      spHessLagCache := None;
    }

    /**
     * `init`: the NLP must map (x, p) to (f, g); the dimensions are the nonzero counts of
     * x, p and g; every input buffer is filled with its default value and every output
     * buffer with zeros.
     */
    method Init() returns (outcome: Outcome<InitError>)
      modifies this`nx, this`np, this`ng, this`ibuf, this`obuf, this`ready
      ensures outcome.Pass? <==> nlp.nIn == NL_NUM_IN && nlp.nOut == NL_NUM_OUT
      ensures outcome.Fail? ==>
        outcome.error == (if nlp.nIn != NL_NUM_IN then WrongInputCount(nlp.nIn) else WrongOutputCount(nlp.nOut))
      ensures outcome.Fail? ==> unchanged(this)
      ensures outcome.Pass? ==>
        && Valid() && nx == nlp.x.nnz && np == nlp.p.nnz && ng == nlp.g.nnz
        && (forall s: SolverInput :: ibuf[s] == Filled(InputSize(s, nx, np, ng), DefaultInput(s)))
        && (forall s: SolverOutput :: obuf[s] == Filled(OutputSize(s, nx, np, ng), Fin(0.0)))
    {
      if nlp.nIn != NL_NUM_IN {
        return Fail(WrongInputCount(nlp.nIn));
      }
      if nlp.nOut != NL_NUM_OUT {
        return Fail(WrongOutputCount(nlp.nOut));
      }
      // Get dimensions
      nx, np, ng := nlp.x.nnz, nlp.p.nnz, nlp.g.nnz;
      // Allocate space for inputs
      ibuf := InitialInputs(nx, np, ng);
      // Allocate space for outputs
      obuf := InitialOutputs(nx, np, ng);
      ready := true;
      InitialInputsAreDefaults(nx, np, ng);
      InitialOutputsAreZero(nx, np, ng);
      return Pass;
    }

    /**
     * `checkInitialBounds`: the problem is ill-posed when some variable's bounds
     * conflict (checked first) or, failing that, some constraint's bounds conflict.
     * When it is well posed and `warn_initial_bounds` is set, a warning is issued iff
     * the initial guess lies outside the variable bounds; the warning is not a failure.
     */
    method CheckInitialBounds() returns (outcome: Outcome<BoundsError>, warned: bool)
      requires Valid()
      ensures outcome == Fail(IllPosedX) <==> IllPosed(ibuf[LBX], ibuf[UBX], nx)
      ensures outcome == Fail(IllPosedG) <==> !IllPosed(ibuf[LBX], ibuf[UBX], nx) && IllPosed(ibuf[LBG], ibuf[UBG], ng)
      ensures outcome.Pass? <==> !IllPosed(ibuf[LBX], ibuf[UBX], nx) && !IllPosed(ibuf[LBG], ibuf[UBG], ng)
      ensures warned <==> outcome.Pass? && opts.warnInitialBounds && GuessOutside(ibuf[X0], ibuf[LBX], ibuf[UBX], nx)
    {
      var x0, lbx, ubx, lbg, ubg := ibuf[X0], ibuf[LBX], ibuf[UBX], ibuf[LBG], ibuf[UBG];
      // Detect ill-posed problems (simple bounds)
      var violated := false;
      var i := 0;
      while !violated && i < nx
        invariant 0 <= i <= nx
        invariant violated <==> exists j :: 0 <= j < i && Conflict(lbx[j], ubx[j])
      {
        violated := lbx[i] == PosInf || Less(ubx[i], lbx[i]) || ubx[i] == NegInf;
        i := i + 1;
      }
      if violated {
        return Fail(IllPosedX), false;
      }
      // Detect ill-posed problems (nonlinear bounds)
      i := 0;
      while !violated && i < ng
        invariant 0 <= i <= ng
        invariant violated <==> exists j :: 0 <= j < i && Conflict(lbg[j], ubg[j])
      {
        violated := lbg[i] == PosInf || Less(ubg[i], lbg[i]) || ubg[i] == NegInf;
        i := i + 1;
      }
      if violated {
        return Fail(IllPosedG), false;
      }
      // Warn if initial condition violates bounds
      warned := false;
      if opts.warnInitialBounds {
        var k := 0;
        while !violated && k < nx
          invariant 0 <= k <= nx
          invariant violated <==> exists j :: 0 <= j < k && (Less(ubx[j], x0[j]) || Less(x0[j], lbx[j]))
        {
          violated := Less(ubx[k], x0[k]) || Less(x0[k], lbx[k]);
          k := k + 1;
        }
        warned := violated;
      }
      return Pass, warned;
    }

    /**
     * `checkInputs`: every lower bound must be at most its upper bound, variables first;
     * the error names the first index where this fails, with both bounds.
     */
    method CheckInputs() returns (outcome: Outcome<InputError>)
      requires Valid()
      ensures outcome.Pass? <==> Ordered(ibuf[LBX], ibuf[UBX]) && Ordered(ibuf[LBG], ibuf[UBG])
      ensures outcome.Fail? && outcome.error.LbxAboveUbx? ==>
        var i := outcome.error.i;
        && i < nx && Less(ibuf[UBX][i], ibuf[LBX][i])
        && outcome.error.lb == ibuf[LBX][i] && outcome.error.ub == ibuf[UBX][i]
        && forall j :: 0 <= j < i ==> LessEq(ibuf[LBX][j], ibuf[UBX][j])
      ensures outcome.Fail? && outcome.error.LbgAboveUbg? ==>
        var i := outcome.error.i;
        && Ordered(ibuf[LBX], ibuf[UBX])
        && i < ng && Less(ibuf[UBG][i], ibuf[LBG][i])
        && outcome.error.lb == ibuf[LBG][i] && outcome.error.ub == ibuf[UBG][i]
        && forall j :: 0 <= j < i ==> LessEq(ibuf[LBG][j], ibuf[UBG][j])
    {
      var lbx, ubx, lbg, ubg := ibuf[LBX], ibuf[UBX], ibuf[LBG], ibuf[UBG];
      var i := 0;
      while i < |lbx|
        invariant 0 <= i <= |lbx|
        invariant forall j :: 0 <= j < i ==> LessEq(lbx[j], ubx[j])
      {
        if !LessEq(lbx[i], ubx[i]) {
          return Fail(LbxAboveUbx(i, lbx[i], ubx[i]));
        }
        i := i + 1;
      }
      i := 0;
      while i < |lbg|
        invariant 0 <= i <= |lbg|
        invariant forall j :: 0 <= j < i ==> LessEq(lbg[j], ubg[j])
      {
        if !LessEq(lbg[i], ubg[i]) {
          return Fail(LbgAboveUbg(i, lbg[i], ubg[i]));
        }
        i := i + 1;
      }
      return Pass;
    }

    /** `getGradF`: the user's `grad_f` or the NLP's objective gradient, which must have
        the gradient signature. */
    function GetGradF(): (r: Result<Fn, GetterError>)
      ensures var f := Preferred(opts.gradF, nlp.gradient);
        r.Success? <==> f.nIn == GRADF_NUM_IN && f.nOut == GRADF_NUM_OUT
      ensures r.Success? && opts.gradF.Some? ==> r.value == opts.gradF.value
      ensures r.Success? && opts.gradF.None? ==> r.value == nlp.gradient
      ensures r.Failure? ==> r.error.kind == GradientF
    {
      Checked(Preferred(opts.gradF, nlp.gradient), GradientF, GRADF_NUM_IN, GRADF_NUM_OUT)
    }

    /** `getJacF`: the user's `jac_f` or the NLP's objective Jacobian, with the gradient
        signature. */
    function GetJacF(): (r: Result<Fn, GetterError>)
      ensures var f := Preferred(opts.jacF, nlp.jacobianF);
        r.Success? <==> f.nIn == GRADF_NUM_IN && f.nOut == GRADF_NUM_OUT
      ensures r.Success? && opts.jacF.Some? ==> r.value == opts.jacF.value
      ensures r.Success? && opts.jacF.None? ==> r.value == nlp.jacobianF
      ensures r.Failure? ==> r.error.kind == JacobianF
    {
      Checked(Preferred(opts.jacF, nlp.jacobianF), JacobianF, GRADF_NUM_IN, GRADF_NUM_OUT)
    }

    /** `getJacG`: a null handle when there are no constraints; otherwise the user's
        `jac_g` or the NLP's constraint Jacobian, with the Jacobian signature. */
    function GetJacG(): (r: Result<Option<Fn>, GetterError>)
      reads this
      ensures ng == 0 ==> r == Success(None)
      ensures var f := Preferred(opts.jacG, nlp.jacobianG);
        ng != 0 ==> (r.Success? <==> f.nIn == JACG_NUM_IN && f.nOut == JACG_NUM_OUT)
      ensures ng != 0 && r.Success? ==> r.value == Some(Preferred(opts.jacG, nlp.jacobianG))
      ensures r.Failure? ==> r.error.kind == JacobianG
    {
      if ng == 0 then Success(None)
      else
        var c := Checked(Preferred(opts.jacG, nlp.jacobianG), JacobianG, JACG_NUM_IN, JACG_NUM_OUT);
        if c.Success? then Success(Some(c.value)) else Failure(c.error)
    }

    /** `getGradLag`: the user's `grad_lag` or the NLP's `derivative(0, 1)`; no arity
        check. */
    function GetGradLag(): (f: Fn)
      ensures opts.gradLag.Some? ==> f == opts.gradLag.value
      ensures opts.gradLag.None? ==> f == nlp.derivative
    {
      Preferred(opts.gradLag, nlp.derivative)
    }

    /** `gradF()`: generated on the first call that succeeds, then returned from the
        cache. */
    method GradF() returns (r: Result<Fn, GetterError>)
      modifies this`gradFCache
      ensures old(gradFCache).Some? ==> r == Success(old(gradFCache).value) && gradFCache == old(gradFCache)
      ensures old(gradFCache).None? ==> r == GetGradF() && gradFCache == Cached(r)
    {
      if gradFCache.None? {
        var f := GetGradF();
        if f.Failure? {
          return f;
        }
        gradFCache := Some(f.value);
      }
      return Success(gradFCache.value);
    }

    /** `jacF()`: generated on the first call that succeeds, then returned from the
        cache. */
    method JacF() returns (r: Result<Fn, GetterError>)
      modifies this`jacFCache
      ensures old(jacFCache).Some? ==> r == Success(old(jacFCache).value) && jacFCache == old(jacFCache)
      ensures old(jacFCache).None? ==> r == GetJacF() && jacFCache == Cached(r)
    {
      if jacFCache.None? {
        var f := GetJacF();
        if f.Failure? {
          return f;
        }
        jacFCache := Some(f.value);
      }
      return Success(jacFCache.value);
    }

    /** `jacG()`: with no constraints the null handle is returned and nothing is
        cached, so every call asks again; otherwise as the other getters. */
    method JacG() returns (r: Result<Option<Fn>, GetterError>)
      modifies this`jacGCache
      ensures old(jacGCache).Some? ==> r == Success(old(jacGCache)) && jacGCache == old(jacGCache)
      ensures old(jacGCache).None? ==> r == GetJacG() && jacGCache == (if r.Success? then r.value else None)
      ensures old(jacGCache).None? && ng == 0 ==> r == Success(None) && jacGCache == None
    {
      if jacGCache.None? {
        var f := GetJacG();
        if f.Failure? {
          return f;
        }
        jacGCache := f.value;
      }
      return Success(jacGCache);
    }

    /** `gradLag()`: generated on the first call, then returned from the cache. */
    method GradLag() returns (f: Fn)
      modifies this`gradLagCache
      ensures old(gradLagCache).Some? ==> f == old(gradLagCache).value && gradLagCache == old(gradLagCache)
      ensures old(gradLagCache).None? ==> f == GetGradLag() && gradLagCache == Some(f)
    {
      if gradLagCache.None? {
        gradLagCache := Some(GetGradLag());
      }
      return gradLagCache.value;
    }

    /** `getHessLag`: the user's `hess_lag`, or the Hessian generated from the (lazily
        generated) Lagrangian gradient, with the Hessian signature. */
    method GetHessLag() returns (r: Result<Fn, GetterError>)
      modifies this`gradLagCache
      ensures opts.hessLag.Some? ==>
        r == Checked(opts.hessLag.value, HessianLag, HESSLAG_NUM_IN, HESSLAG_NUM_OUT) && gradLagCache == old(gradLagCache)
      ensures opts.hessLag.None? ==>
        && gradLagCache == Some(if old(gradLagCache).Some? then old(gradLagCache).value else GetGradLag())
        && r == Checked(nlp.hessianOf(gradLagCache.value), HessianLag, HESSLAG_NUM_IN, HESSLAG_NUM_OUT)
    {
      var hessLag: Fn;
      if opts.hessLag.Some? {
        hessLag := opts.hessLag.value;
      } else {
        var gradLag := GradLag();
        hessLag := nlp.hessianOf(gradLag);
      }
      r := Checked(hessLag, HessianLag, HESSLAG_NUM_IN, HESSLAG_NUM_OUT);
    }

    /** `hessLag()`: generated on the first call that succeeds, then returned from the
        cache; generating it may generate and cache the Lagrangian gradient. */
    method HessLag() returns (r: Result<Fn, GetterError>)
      modifies this`hessLagCache, this`gradLagCache
      ensures old(hessLagCache).Some? ==>
        r == Success(old(hessLagCache).value) && hessLagCache == old(hessLagCache) && gradLagCache == old(gradLagCache)
      ensures old(hessLagCache).None? ==> hessLagCache == Cached(r)
      ensures old(hessLagCache).None? && opts.hessLag.Some? ==>
        r == Checked(opts.hessLag.value, HessianLag, HESSLAG_NUM_IN, HESSLAG_NUM_OUT) && gradLagCache == old(gradLagCache)
      ensures old(hessLagCache).None? && opts.hessLag.None? ==>
        && gradLagCache == Some(if old(gradLagCache).Some? then old(gradLagCache).value else GetGradLag())
        && r == Checked(nlp.hessianOf(gradLagCache.value), HessianLag, HESSLAG_NUM_IN, HESSLAG_NUM_OUT)
    {
      if hessLagCache.None? {
        var h := GetHessLag();
        if h.Failure? {
          return h;
        }
        hessLagCache := Some(h.value);
      }
      return Success(hessLagCache.value);
    }

    /** `spHessLag()`: the Hessian's sparsity, the Jacobian sparsity of the (lazily
        generated) Lagrangian gradient; generated on the first call, then cached. */
    method SpHessLag() returns (sp: Pattern)
      modifies this`spHessLagCache, this`gradLagCache
      ensures old(spHessLagCache).Some? ==>
        sp == old(spHessLagCache).value && spHessLagCache == old(spHessLagCache) && gradLagCache == old(gradLagCache)
      ensures old(spHessLagCache).None? ==>
        && gradLagCache == Some(if old(gradLagCache).Some? then old(gradLagCache).value else GetGradLag())
        && sp == nlp.hessSparsityOf(gradLagCache.value) && spHessLagCache == Some(sp)
    {
      if spHessLagCache.None? {
        var gradLag := GradLag();
        spHessLagCache := Some(nlp.hessSparsityOf(gradLag));
      }
      return spHessLagCache.value;
    }
  }

  /** The default bounds are never ill-posed: minus infinity below, plus infinity
      above, whatever the dimensions. */
  lemma DefaultBoundsWellPosed(nx: nat, ng: nat)
    ensures !IllPosed(Filled(nx, DefaultInput(LBX)), Filled(nx, DefaultInput(UBX)), nx)
    ensures !IllPosed(Filled(ng, DefaultInput(LBG)), Filled(ng, DefaultInput(UBG)), ng)
    ensures Ordered(Filled(nx, DefaultInput(LBX)), Filled(nx, DefaultInput(UBX)))
    ensures Ordered(Filled(ng, DefaultInput(LBG)), Filled(ng, DefaultInput(UBG)))
  {
  }

  /** Bounds that pass `checkInitialBounds` pass `checkInputs`: no conflicting pair has
      its lower bound above its upper. */
  lemma WellPosedIsOrdered(lb: seq<Ext>, ub: seq<Ext>)
    requires |lb| == |ub| && !IllPosed(lb, ub, |lb|)
    ensures Ordered(lb, ub)
  {
    forall i | 0 <= i < |lb| ensures LessEq(lb[i], ub[i]) {
      assert !Conflict(lb[i], ub[i]);
    }
  }

  /** The converse does not hold: a variable fixed at plus infinity passes
      `checkInputs` but is ill-posed for `checkInitialBounds`. */
  lemma OrderedNotWellPosed()
    ensures Ordered([PosInf], [PosInf]) && IllPosed([PosInf], [PosInf], 1)
  {
    assert Conflict([PosInf][0], [PosInf][0]);
  }
}
