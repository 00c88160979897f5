/**
 * The rootfinder node (casadi/core/function/rootfinder.cpp): a function that solves
 * F(z, p) = 0 for the unknown input `iin` of the oracle F, whose output `iout` is the
 * residual. Modelled here: option reading and setup validation (`init`), the
 * structural dependency propagation (`sp_fwd`, `sp_rev`), the symbolic derivative
 * wiring (`forward`, `reverse`) and the layout of the derivative functions
 * (`get_forward`, `get_reverse`).
 */
module Rootfinder {
  import opened Wrappers
  import opened FlatMemory
  import opened Oracle
  import opened ImplicitAD

  /** One entry of the options dictionary given to `init`, keyed by option name. */
  datatype OptEntry<!E> =
    | ImplicitInput(index: int)
    | ImplicitOutput(index: int)
    | JacobianFunction(jac: JacFn<E>)
    | LinearSolver(plugin: string)
    | LinearSolverOptions
    | Constraints(tags: seq<int>)
    | OtherOption(key: string)

  /** What the option loop of `init` determines: the unknown's and the residual's indices,
      a user-supplied Jacobian function if any, and the constraint tags. */
  datatype Settings<!E> = Settings(iin: int, iout: int, jac: Option<JacFn<E>>, uc: seq<int>)

  /** The option loop of `init`, entry by entry: each recognised option overwrites its setting. */
  function ReadOptions<E>(opts: seq<OptEntry<E>>, s: Settings<E>): (r: Settings<E>)
    decreases |opts|
  {
    if |opts| == 0 then s
    else
      var r0 := ReadOptions(opts[..|opts| - 1], s);
      match opts[|opts| - 1]
      case ImplicitInput(i) => r0.(iin := i)
      case ImplicitOutput(i) => r0.(iout := i)
      case JacobianFunction(j) => r0.(jac := Some(j))
      case Constraints(c) => r0.(uc := c)
      case _ => r0
  }

  /** Two entries set the same option. */
  predicate SameOption<E>(a: OptEntry<E>, b: OptEntry<E>) {
    (a.ImplicitInput? && b.ImplicitInput?) || (a.ImplicitOutput? && b.ImplicitOutput?) ||
    (a.JacobianFunction? && b.JacobianFunction?) || (a.Constraints? && b.Constraints?)
  }

  /** The last entry for an option decides its setting. The options dictionary holds each
      key at most once, so there the last entry is the only one; the lemma states it for any
      entry list. */
  lemma {:induction false} ReadOptionsLastWins<E>(opts: seq<OptEntry<E>>, s: Settings<E>, k: nat)
    requires k < |opts|
    requires forall j :: k < j < |opts| ==> !SameOption(opts[j], opts[k])
    ensures var r := ReadOptions(opts, s);
      && (opts[k].ImplicitInput? ==> r.iin == opts[k].index)
      && (opts[k].ImplicitOutput? ==> r.iout == opts[k].index)
      && (opts[k].JacobianFunction? ==> r.jac == Some(opts[k].jac))
      && (opts[k].Constraints? ==> r.uc == opts[k].tags)
    decreases |opts|
  {
    var last := |opts| - 1;
    if k < last {
      forall j | k < j < |opts[..last]| ensures !SameOption(opts[..last][j], opts[..last][k]) {
        assert opts[..last][j] == opts[j];
      }
      ReadOptionsLastWins(opts[..last], s, k);
      assert !SameOption(opts[last], opts[k]);
    }
  }

  /** A setting no entry mentions keeps its value from before the loop. */
  lemma {:induction false} ReadOptionsKeeps<E>(opts: seq<OptEntry<E>>, s: Settings<E>)
    ensures var r := ReadOptions(opts, s);
      && ((forall j :: 0 <= j < |opts| ==> !opts[j].ImplicitInput?) ==> r.iin == s.iin)
      && ((forall j :: 0 <= j < |opts| ==> !opts[j].ImplicitOutput?) ==> r.iout == s.iout)
      && ((forall j :: 0 <= j < |opts| ==> !opts[j].JacobianFunction?) ==> r.jac == s.jac)
      && ((forall j :: 0 <= j < |opts| ==> !opts[j].Constraints?) ==> r.uc == s.uc)
    decreases |opts|
  {
    if |opts| > 0 {
      var last := |opts| - 1;
      ReadOptionsKeeps(opts[..last], s);
      assert forall j :: 0 <= j < last ==> opts[..last][j] == opts[j];
    }
  }

  /** Why `init` refuses a configuration, in the order it checks. */
  datatype InitError =
    | ImplicitInputNotInRange
    | ImplicitOutputNotInRange
    | ResidualNotDenseVector
    | UnknownNotDenseVector
    | DimensionMismatch(inputSize: nat, outputSize: nat)
    | StructurallySingular(sprank: nat, rows: nat)
    | ConstraintLength(got: nat, n: nat)

  /** What a successful `init` fixes: the system size, the Jacobian's pattern and the
      requested work size. */
  datatype Setup = Setup(n: nat, pattern: Pattern, szW: nat)

  function Max(a: nat, b: nat): (r: nat)
    ensures r >= a && r >= b && (r == a || r == b)
  {
    if a >= b then a else b
  }

  /** The Jacobian function used: the one supplied as an option, else the oracle's own. */
  function JacobianOf<E>(f: Function<E>, s: Settings<E>): JacFn<E> {
    if s.jac.Some? then s.jac.value else f.jacobian(s.iin, s.iout)
  }

  /** Both indices name an existing input/output. */
  predicate IndicesInRange<E>(f: Function<E>, s: Settings<E>) {
    0 <= s.iin < |f.ins| && 0 <= s.iout < |f.outs|
  }

  /** The residual output is a dense column vector. */
  predicate ResidualIsDenseColumn<E>(f: Function<E>, s: Settings<E>)
    requires IndicesInRange(f, s)
  {
    f.outs[s.iout].IsDense() && f.outs[s.iout].IsColumn()
  }

  /** The unknown input is a dense column vector. */
  predicate UnknownIsDenseColumn<E>(f: Function<E>, s: Settings<E>)
    requires IndicesInRange(f, s)
  {
    f.ins[s.iin].IsDense() && f.ins[s.iin].IsColumn()
  }

  /** The residual and the unknown are dense columns with the same number of entries. */
  predicate SquareSystem<E>(f: Function<E>, s: Settings<E>)
    requires IndicesInRange(f, s)
  {
    ResidualIsDenseColumn(f, s) && UnknownIsDenseColumn(f, s) && f.outs[s.iout].nnz == f.ins[s.iin].nnz
  }

  /** Everything `init` demands of a configuration. */
  predicate WellPosed<E>(f: Function<E>, s: Settings<E>) {
    IndicesInRange(f, s) && SquareSystem(f, s) &&
    !JacobianOf(f, s).pattern.singular &&
    (|s.uc| == f.outs[s.iout].nnz || |s.uc| == 0)
  }

  /**
   * The checks of `init` after the option loop. Succeeds exactly for a well-posed
   * configuration; the system size is the residual's nonzero count and the work size
   * asked for is the larger of the oracle's and the Jacobian's plus two vectors of n.
   * A failure reports the first violated check.
   */
  function Validate<E>(f: Function<E>, s: Settings<E>): (r: Result<Setup, InitError>)
    ensures r.Success? <==> WellPosed(f, s)
    ensures r.Success? ==>
      var n := f.outs[s.iout].nnz;
      var J := JacobianOf(f, s);
      r.value.n == n == f.ins[s.iin].nnz && r.value.pattern == J.pattern && r.value.szW == Max(f.szW, J.szW) + 2 * n
    ensures !(0 <= s.iin < |f.ins|) ==> r == Failure(ImplicitInputNotInRange)
    ensures 0 <= s.iin < |f.ins| && !(0 <= s.iout < |f.outs|) ==> r == Failure(ImplicitOutputNotInRange)
    ensures IndicesInRange(f, s) && !ResidualIsDenseColumn(f, s) ==> r == Failure(ResidualNotDenseVector)
    ensures (IndicesInRange(f, s) && ResidualIsDenseColumn(f, s) && !UnknownIsDenseColumn(f, s)) ==>
      r == Failure(UnknownNotDenseVector)
    ensures (IndicesInRange(f, s) && ResidualIsDenseColumn(f, s) && UnknownIsDenseColumn(f, s)
             && f.outs[s.iout].nnz != f.ins[s.iin].nnz) ==>
      r == Failure(DimensionMismatch(f.ins[s.iin].nnz, f.outs[s.iout].nnz))
    ensures (IndicesInRange(f, s) && SquareSystem(f, s) && JacobianOf(f, s).pattern.singular) ==>
      r == Failure(StructurallySingular(JacobianOf(f, s).pattern.sprank, JacobianOf(f, s).pattern.rows))
    ensures (IndicesInRange(f, s) && SquareSystem(f, s) && !JacobianOf(f, s).pattern.singular
             && !(|s.uc| == f.outs[s.iout].nnz || |s.uc| == 0)) ==>
      r == Failure(ConstraintLength(|s.uc|, f.outs[s.iout].nnz))
  {
    if !(0 <= s.iin < |f.ins|) then Failure(ImplicitInputNotInRange)
    else if !(0 <= s.iout < |f.outs|) then Failure(ImplicitOutputNotInRange)
    else if !(f.outs[s.iout].IsDense() && f.outs[s.iout].IsColumn()) then Failure(ResidualNotDenseVector)
    else if !(f.ins[s.iin].IsDense() && f.ins[s.iin].IsColumn()) then Failure(UnknownNotDenseVector)
    else
      var n := f.outs[s.iout].nnz;
      if n != f.ins[s.iin].nnz then Failure(DimensionMismatch(f.ins[s.iin].nnz, n))
      else
        var J := JacobianOf(f, s);
        if J.pattern.singular then Failure(StructurallySingular(J.pattern.sprank, J.pattern.rows))
        else if !(|s.uc| == n || |s.uc| == 0) then Failure(ConstraintLength(|s.uc|, n))
        else Success(Setup(n, J.pattern, Max(f.szW, J.szW) + 2 * n))
  }

  /** Where a caller's buffers may lie for structural propagation: every buffer inside the
      memory, the output buffers pairwise apart, and inputs, outputs and the two scratch
      vectors `[w, w + 2n)` apart from each other. */
  ghost predicate Layout(size: nat, A: seq<Ptr>, szIn: seq<nat>, R: seq<Ptr>, szOut: seq<nat>, w: nat, n: nat) {
    SlotsFit(A, szIn, size) && SlotsFit(R, szOut, size) && w + 2 * n <= size &&
    SlotsDisjoint(R, szOut) && SlotsApart(A, szIn, R, szOut) &&
    SlotsAvoid(A, szIn, w, 2 * n) && SlotsAvoid(R, szOut, w, 2 * n)
  }

  /** The input pointer array, the output pointer array and the memory are three distinct
      objects. */
  predicate Separate(arg: array<Ptr>, res: array<Ptr>, mem: array<Bits>) {
    arg != res && arg as object != mem && res as object != mem
  }

  /** Only output `i` of `count` is asked for. */
  function Wanted(count: nat, i: nat): (r: seq<bool>)
    ensures |r| == count && forall j :: 0 <= j < count ==> (r[j] <==> j == i)
  {
    seq(count, j => j == i)
  }

  /** Loading through a pointer array with slot `i` nulled hides input `i` and nothing else. */
  lemma LoadNulled(m: seq<Bits>, ps: seq<Ptr>, lens: seq<nat>, i: nat)
    requires SlotsFit(ps, lens, |m|) && i < |ps|
    ensures SlotsFit(ps[i := None], lens, |m|)
    ensures Load(m, ps[i := None], lens) == Load(m, ps, lens)[i := None]
  {
    var after, before := Load(m, ps[i := None], lens), Load(m, ps, lens)[i := None];
    assert forall j :: 0 <= j < |ps| ==> after[j] == before[j];
  }

  /** Loading through a pointer array with slot `i` redirected to address `a`. */
  lemma LoadRedirected(m: seq<Bits>, ps: seq<Ptr>, lens: seq<nat>, i: nat, a: nat)
    requires SlotsFit(ps, lens, |m|) && i < |ps| && a + lens[i] <= |m|
    ensures SlotsFit(ps[i := Some(a)], lens, |m|)
    ensures Load(m, ps[i := Some(a)], lens) == Load(m, ps, lens)[i := Some(Region(m, a, lens[i]))]
  {
    var after, before := Load(m, ps[i := Some(a)], lens), Load(m, ps, lens)[i := Some(Region(m, a, lens[i]))];
    assert forall j :: 0 <= j < |ps| ==> after[j] == before[j];
  }

  /** A single non-null slot: its buffers are trivially apart, and only its region is covered. */
  lemma OnlyAtSlots(count: nat, i: nat, p: nat, lens: seq<nat>, size: nat)
    requires |lens| == count && i < count && p + lens[i] <= size
    ensures SlotsFit(OnlyAt(count, i, p), lens, size)
    ensures SlotsDisjoint(OnlyAt(count, i, p), lens)
    ensures Mask(OnlyAt(count, i, p)) == Wanted(count, i)
    ensures forall k :: InSlots(k, OnlyAt(count, i, p), lens) ==> Inside(k, p, lens[i])
  {
  }

  /** Nulling a slot keeps the remaining buffers apart and covers less memory. */
  lemma NulledSlots(ps: seq<Ptr>, lens: seq<nat>, i: nat, size: nat)
    requires SlotsFit(ps, lens, size) && i < |ps|
    ensures SlotsFit(ps[i := None], lens, size)
    ensures SlotsDisjoint(ps, lens) ==> SlotsDisjoint(ps[i := None], lens)
    ensures forall k :: InSlots(k, ps[i := None], lens) ==> InSlots(k, ps, lens)
  {
    forall k | InSlots(k, ps[i := None], lens) ensures InSlots(k, ps, lens) {
      var j :| 0 <= j < |ps| && ps[i := None][j].Some? && Inside(k, ps[i := None][j].value, lens[j]);
      assert ps[j] == ps[i := None][j];
    }
    if SlotsDisjoint(ps, lens) {
      forall a, b | 0 <= a < |ps| && 0 <= b < |ps| && a != b
        ensures SlotApart(ps[i := None][a], lens[a], ps[i := None][b], lens[b])
      {
        assert SlotApart(ps[a], lens[a], ps[b], lens[b]);
      }
    }
  }

  /** Redirecting slot `i` of pairwise-apart buffers to a region apart from all of them keeps
      them pairwise apart. */
  lemma RedirectedSlots(ps: seq<Ptr>, lens: seq<nat>, i: nat, a: nat, size: nat)
    requires SlotsFit(ps, lens, size) && i < |ps| && a + lens[i] <= size
    requires SlotsDisjoint(ps, lens) && SlotsAvoid(ps, lens, a, lens[i])
    ensures SlotsFit(ps[i := Some(a)], lens, size) && SlotsDisjoint(ps[i := Some(a)], lens)
    ensures forall k :: InSlots(k, ps[i := Some(a)], lens) ==> InSlots(k, ps, lens) || Inside(k, a, lens[i])
  {
    var qs := ps[i := Some(a)];
    forall x, y | 0 <= x < |qs| && 0 <= y < |qs| && x != y
      ensures SlotApart(qs[x], lens[x], qs[y], lens[y])
    {
      if x == i {
        assert SlotApart(ps[y], lens[y], Some(a), lens[i]);
      } else if y == i {
        assert SlotApart(ps[x], lens[x], Some(a), lens[i]);
      } else {
        assert SlotApart(ps[x], lens[x], ps[y], lens[y]);
      }
    }
    forall k | InSlots(k, qs, lens) ensures InSlots(k, ps, lens) || Inside(k, a, lens[i]) {
      var j :| 0 <= j < |qs| && qs[j].Some? && Inside(k, qs[j].value, lens[j]);
      if j != i {
        assert ps[j] == qs[j];
      }
    }
  }

  /** A region of `len` words inside `[w, w + 2n)` avoided by every buffer of `ps`. */
  lemma AvoidSub(ps: seq<Ptr>, lens: seq<nat>, w: nat, n: nat, a: nat, len: nat)
    requires |ps| == |lens| && SlotsAvoid(ps, lens, w, 2 * n) && w <= a && a + len <= w + 2 * n
    ensures SlotsAvoid(ps, lens, a, len)
  {
  }

  /** casadi's per-call memory object: where the caller's input and output pointer arrays
      start. */
  class RootfinderMemory {
    var iarg: nat
    var ires: nat

    constructor ()
      ensures iarg == 0 && ires == 0
    {
      iarg, ires := 0, 0;
    }
  }

  class Rootfinder<E(!new)> {
    const name: string
    /** The residual function F. */
    const oracle: Function<E>
    /** Symbolic building blocks for derivative functions. */
    const symbols: Symbols<E>
    /** `iin_`: index of the unknown input. */
    var iin: int
    /** `iout_`: index of the residual output. */
    var iout: int
    /** `u_c_`: per-unknown constraint tags. */
    var uc: seq<int>
    /** `n_`: number of equations. */
    var n: int
    /** `sp_jac_`: sparsity of the Jacobian ∂r/∂z (null before `init`). */
    var spJac: Option<Pattern>
    /** The Jacobian function registered as `jac_f_z` (none before `init`). */
    var jacFz: Option<JacFn<E>>
    /** The work size requested with `alloc_w`. */
    var szW: nat
    /** `init` has completed. */
    var ready: bool

    function NIn(): nat { |oracle.ins| }
    function NOut(): nat { |oracle.outs| }
    function SzIn(): seq<nat> { NnzIn(oracle) }
    function SzOut(): seq<nat> { NnzOut(oracle) }

    /** The state `init` leaves behind on success. */
    ghost predicate Valid()
      reads this
    {
      ready && 0 <= iin < NIn() && 0 <= iout < NOut() &&
      n == oracle.outs[iout].nnz == oracle.ins[iin].nnz &&
      oracle.outs[iout].IsDense() && oracle.outs[iout].IsColumn() &&
      oracle.ins[iin].IsDense() && oracle.ins[iin].IsColumn() &&
      spJac.Some? && !spJac.value.singular && (|uc| == n || |uc| == 0) &&
      jacFz.Some? && spJac.value == jacFz.value.pattern
    }

    /** The oracle's symbolic propagation, with the Jacobian evaluated through `jac_f_z`
        as `forward` and `reverse` do. */
    function Sym(): SymOracle<E>
      reads this
      requires Valid()
    {
      oracle.sym.(jac := jacFz.value.eval)
    }

    /** The collaborators keep their interface contracts (shapes of what they return). */
    ghost predicate Contracts()
      reads this
    {
      BitShaped(oracle.bits, SzIn(), SzOut()) &&
      SymShaped(oracle.sym, NIn(), NOut()) &&
      SymbolsShaped(symbols, NIn(), NOut()) &&
      (spJac.Some? ==> SolveShaped(spJac.value))
    }

    /** The constructor: unknown and residual default to input 0 and output 0. */
    constructor (name: string, oracle: Function<E>, symbols: Symbols<E>)
      ensures this.name == name && this.oracle == oracle && this.symbols == symbols
      ensures iin == 0 && iout == 0 && uc == [] && spJac == None && jacFz == None && !ready
    {
      this.name := name;
      this.oracle := oracle;
      this.symbols := symbols;
      iin, iout := 0, 0;
      uc := [];
      n := 0;
      spJac := None;
      jacFz := None;
      szW := 0;
      ready := false;
    }

    /**
     * `init`: reads the options, then checks the configuration in order; on success the
     * node is ready with n, the Jacobian's pattern and the work size fixed.
     */
    method Init(opts: seq<OptEntry<E>>) returns (outcome: Outcome<InitError>)
      modifies this
      ensures var s := ReadOptions(opts, Settings(old(iin), old(iout), None, old(uc)));
        && iin == s.iin && iout == s.iout && uc == s.uc
        && (outcome.Pass? <==> Validate(oracle, s).Success?)
        && (outcome.Fail? ==> outcome.error == Validate(oracle, s).error)
        && (outcome.Pass? ==>
              Valid() && n == Validate(oracle, s).value.n &&
              spJac == Some(Validate(oracle, s).value.pattern) && szW == Validate(oracle, s).value.szW &&
              jacFz == Some(JacobianOf(oracle, s)))
        && (outcome.Fail? ==> !ready)
    {
      ghost var s0 := Settings(iin, iout, None, uc);
      var jac: Option<JacFn<E>> := None;
      var k := 0;
      while k < |opts|
        invariant 0 <= k <= |opts|
        invariant Settings(iin, iout, jac, uc) == ReadOptions(opts[..k], s0)
      {
        assert opts[..k + 1][..k] == opts[..k];
        match opts[k] {
          case ImplicitInput(i) => iin := i;
          case ImplicitOutput(i) => iout := i;
          case JacobianFunction(j) => jac := Some(j);
          case Constraints(c) => uc := c;
          case _ =>
        }
        k := k + 1;
      }
      assert opts[..|opts|] == opts;
      ghost var s := Settings(iin, iout, jac, uc);
      ready := false;
      if !(0 <= iin < |oracle.ins|) {
        return Fail(ImplicitInputNotInRange);
      }
      if !(0 <= iout < |oracle.outs|) {
        return Fail(ImplicitOutputNotInRange);
      }
      if !(oracle.outs[iout].IsDense() && oracle.outs[iout].IsColumn()) {
        return Fail(ResidualNotDenseVector);
      }
      if !(oracle.ins[iin].IsDense() && oracle.ins[iin].IsColumn()) {
        return Fail(UnknownNotDenseVector);
      }
      n := oracle.outs[iout].nnz;
      if n != oracle.ins[iin].nnz {
        return Fail(DimensionMismatch(oracle.ins[iin].nnz, n));
      }
      // Generate Jacobian if not provided
      var J := if jac.Some? then jac.value else oracle.jacobian(iin, iout);
      jacFz := Some(J);
      spJac := Some(J.pattern);
      if J.pattern.singular {
        return Fail(StructurallySingular(J.pattern.sprank, J.pattern.rows));
      }
      if !(|uc| == n || |uc| == 0) {
        return Fail(ConstraintLength(|uc|, n));
      }
      var w := oracle.szW;
      w := Max(w, J.szW);
      szW := w + 2 * n;
      ready := true;
      return Pass;
    }

    /** `set_work`: records where the caller's pointer arrays start and moves past them. */
    method SetWork(m: RootfinderMemory, arg: nat, res: nat) returns (arg': nat, res': nat)
      modifies m
      ensures m.iarg == arg && m.ires == res
      ensures arg' == arg + NIn() && res' == res + NOut()
    {
      m.iarg := arg;
      arg' := arg + NIn();
      m.ires := res;
      res' := res + NOut();
    }

    /** The data structural propagation depends on, fixed by `init`. */
    function Net(): (d: Node)
      reads this
      requires Valid()
      ensures d.bits == oracle.bits && d.szIn == SzIn() && d.szOut == SzOut()
      ensures d.iin == iin && d.iout == iout && d.n == n && d.pattern == spJac.value
      ensures Contracts() ==> NodeOk(d)
    {
      Node(oracle.bits, SzIn(), SzOut(), iin as nat, iout as nat, n as nat, spJac.value)
    }

    /**
     * `get_forward`: the function giving `nfwd` forward directional derivatives. Its
     * inputs are the node's inputs (the unknown replaced by a fresh `_guess` symbol), then
     * its outputs, then one horizontally concatenated seed per input; its outputs are one
     * concatenated sensitivity per output (`ForwardIgnoresGuessValue`: they do not depend
     * on the guess).
     */
    method GetForward(nfwd: nat) returns (ins: seq<E>, outs: seq<E>)
      requires Valid() && Contracts()
      ensures var arg := symbols.mxIn[iin := symbols.guessOf(symbols.mxIn[iin])];
              var fseed := symbols.fwdSeed(nfwd, arg);
        (ins, outs) == Signature(symbols.horzcat, arg, symbols.mxOut, fseed, NIn(),
                                 ForwardSpec(Sym(), iin as nat, iout as nat, arg, symbols.mxOut, fseed, []), NOut())
    {
      ins, outs := ForwardDerivative(Sym(), symbols, iin as nat, iout as nat, nfwd);
    }

    /**
     * `get_reverse`: the function giving `nadj` adjoint directional derivatives. Its
     * inputs are the node's inputs (the unknown replaced by a fresh `_guess` symbol), then
     * its outputs, then one horizontally concatenated seed per output; its outputs are one
     * concatenated sensitivity per input (`ReverseIgnoresGuessValue`: they do not depend
     * on the guess).
     */
    method GetReverse(nadj: nat) returns (ins: seq<E>, outs: seq<E>)
      requires Valid() && Contracts()
      ensures var arg := symbols.mxIn[iin := symbols.guessOf(symbols.mxIn[iin])];
              var aseed := symbols.adjSeed(nadj, symbols.mxOut);
        (ins, outs) == Signature(symbols.horzcat, arg, symbols.mxOut, aseed, NOut(),
                                 ReverseSpec(Sym(), iin as nat, iout as nat, arg, symbols.mxOut, aseed, []), NIn())
      ensures outs[iin] == symbols.horzcat(Repeat(oracle.sym.zeroIn[iin], nadj))
    {
      ins, outs := ReverseDerivative(Sym(), symbols, iin as nat, iout as nat, nadj);
    }
  }

  /**
   * `forward`: the forward sensitivities of the node's outputs, by the implicit function
   * theorem. The oracle is evaluated at the root (the unknown replaced by the residual
   * output) with a zero residual and zero seeds on the guess; the residual's
   * sensitivities are solved with the Jacobian at the root, all directions at once; with
   * auxiliary outputs a second pass, seeded with the root's sensitivity, gives theirs.
   */
  method Forward<E(!new)>(o: SymOracle<E>, iin: nat, iout: nat, arg: seq<E>, res: seq<E>,
                          fseed: seq<seq<E>>, fsensIn: seq<seq<E>>) returns (fsens: seq<seq<E>>)
    requires ForwardArgs(o, iin, iout, arg, res, fseed)
    ensures fsens == ForwardSpec(o, iin, iout, arg, res, fseed, fsensIn)
  {
    // Number of directional derivatives
    var nfwd := |fseed|;
    // Quick return if no seeds
    if nfwd == 0 {
      return [];
    }
    // Propagate through the oracle at the root, with a zero residual and no guess seeds
    var fArg := arg[iin := res[iout]];
    var fRes := res[iout := o.zeroIn[iin]];
    var fFseed := SetColumn(fseed, iin, seq(nfwd, _ => o.zeroIn[iin]));
    fsens := o.fwd(fArg, fRes, fFseed, Resize(fsensIn, nfwd, []));
    // Solve for all the forward derivatives at once
    var J := o.jac(fArg);
    var rhs := TakeColumn(fsens, iout);
    rhs := o.solve(J, Negated(o, rhs), false);
    fsens := SetColumn(fsens, iout, rhs);
    // Propagate to auxiliary outputs
    if |res| > 1 {
      fFseed := SetColumn(fFseed, iin, rhs);
      fsens := o.fwd(fArg, fRes, fFseed, fsens);
      var dz := TakeColumn(fFseed, iin);
      assert dz == rhs;
      fsens := SetColumn(fsens, iout, dz);
    }
  }

  /**
   * `reverse`: the adjoint sensitivities of the node's inputs. With auxiliary outputs,
   * their seeds are first propagated back through the oracle at the root (the residual's
   * seed zeroed), and the unknown's part is added to the residual's seed; the transposed
   * Jacobian then gives the multipliers, which seed the residual alone in the main pass.
   * The guess keeps the sensitivity the caller had (a zero if none), and the true inputs
   * receive the auxiliary pass's contribution on top.
   */
  method Reverse<E(!new)>(o: SymOracle<E>, iin: nat, iout: nat, arg: seq<E>, res: seq<E>,
                          aseed: seq<seq<E>>, asensIn: seq<seq<E>>) returns (asens: seq<seq<E>>)
    requires ReverseArgs(o, iin, iout, arg, res, aseed)
    ensures asens == ReverseSpec(o, iin, iout, arg, res, aseed, asensIn)
  {
    var numIn, numOut := |arg|, |res|;
    // Number of directional derivatives
    var nadj := |aseed|;
    // Quick return if no seeds
    if nadj == 0 {
      return [];
    }
    // The Jacobian at the root
    var fArg := arg[iin := res[iout]];
    var J := o.jac(fArg);
    // Adjoint seeds for the oracle: the residual's seed is a zero
    var fRes := res[iout := o.zeroIn[iin]];
    var fAseed := SetColumn(aseed, iout, seq(nadj, _ => fRes[iout]));
    assert fArg == AtRoot(arg, res, iin, iout) && fRes == ZeroResidual(o, res, iin, iout);
    assert seq(nadj, _ => fRes[iout]) == seq(|aseed|, _ => o.zeroIn[iin]);
    assert fAseed == AuxAdjSeeds(o, iin, iout, arg, res, aseed);
    // Propagate dependencies from auxiliary outputs
    var rhs: seq<E>;
    var asensAux: seq<seq<E>> := [];
    if numOut > 1 {
      asensAux := o.rev(fArg, fRes, fAseed, []);
      var fromAux := TakeColumn(asensAux, iin);
      var seeds := TakeColumn(aseed, iout);
      rhs := Summed(o, fromAux, seeds);
    } else {
      rhs := TakeColumn(aseed, iout);
    }
    assert rhs == AdjRhs(o, iin, iout, arg, res, aseed);
    // Solve for all the adjoint seeds at once
    rhs := o.solve(J, Negated(o, rhs), true);
    assert rhs == Multipliers(o, iin, iout, arg, res, aseed);
    fAseed := MultiplierSeeds(o, rhs, iout, numOut);
    assert fAseed == MainAdjSeeds(o, iin, iout, arg, res, aseed);
    // No dependency on guess (1)
    var tmp;
    asens, tmp := PriorSens(o, asensIn, nadj, numIn, iin);
    // Propagate through the oracle
    asens := o.rev(fArg, fRes, fAseed, asens);
    assert asens == MainPass(o, iin, iout, arg, res, aseed, asensIn);
    // No dependency on guess (2)
    asens := SetColumn(asens, iin, tmp);
    // Add contribution from auxiliary outputs
    if numOut > 1 {
      asens := AddAux(o, asens, asensAux, iin);
    }
  }

  /** The body of `get_forward`, given the node's data. */
  method ForwardDerivative<E(!new)>(o: SymOracle<E>, s: Symbols<E>, iin: nat, iout: nat, nfwd: nat)
    returns (ins: seq<E>, outs: seq<E>)
    requires SymShaped(o, |s.mxIn|, |s.mxOut|) && SymbolsShaped(s, |s.mxIn|, |s.mxOut|)
    requires iin < |s.mxIn| && iout < |s.mxOut|
    ensures var arg := s.mxIn[iin := s.guessOf(s.mxIn[iin])];
            var fseed := s.fwdSeed(nfwd, arg);
      (ins, outs) == Signature(s.horzcat, arg, s.mxOut, fseed, |s.mxIn|,
                               ForwardSpec(o, iin, iout, arg, s.mxOut, fseed, []), |s.mxOut|)
  {
    // Symbolic expression for the input
    var arg := s.mxIn[iin := s.guessOf(s.mxIn[iin])];
    var res := s.mxOut;
    var fseed := s.fwdSeed(nfwd, arg);
    var fsens := Forward(o, iin, iout, arg, res, fseed, []);
    // Construct return function
    ins, outs := DerivativeSignature(s.horzcat, arg, res, fseed, |s.mxIn|, fsens, |res|);
  }

  /** The body of `get_reverse`, given the node's data. */
  method ReverseDerivative<E(!new)>(o: SymOracle<E>, s: Symbols<E>, iin: nat, iout: nat, nadj: nat)
    returns (ins: seq<E>, outs: seq<E>)
    requires SymShaped(o, |s.mxIn|, |s.mxOut|) && SymbolsShaped(s, |s.mxIn|, |s.mxOut|)
    requires iin < |s.mxIn| && iout < |s.mxOut|
    ensures var arg := s.mxIn[iin := s.guessOf(s.mxIn[iin])];
            var aseed := s.adjSeed(nadj, s.mxOut);
      (ins, outs) == Signature(s.horzcat, arg, s.mxOut, aseed, |s.mxOut|,
                               ReverseSpec(o, iin, iout, arg, s.mxOut, aseed, []), |s.mxIn|)
    ensures outs[iin] == s.horzcat(Repeat(o.zeroIn[iin], nadj))
  {
    // Symbolic expression for the input
    var arg := s.mxIn[iin := s.guessOf(s.mxIn[iin])];
    var res := s.mxOut;
    var aseed := s.adjSeed(nadj, res);
    var asens := Reverse(o, iin, iout, arg, res, aseed, []);
    // Construct return function
    ins, outs := DerivativeSignature(s.horzcat, arg, res, aseed, |res|, asens, |s.mxIn|);
    ReverseGuessSensZero(o, iin, iout, arg, res, aseed);
  }

  /** `for d: s[d][i] = c[d]`: entry `i` of every direction set from `c`. */
  method SetColumn<E>(s: seq<seq<E>>, i: nat, c: seq<E>) returns (r: seq<seq<E>>)
    requires |c| == |s| && forall d :: 0 <= d < |s| ==> i < |s[d]|
    ensures r == WithColumn(s, i, c)
  {
    r := s;
    var d := 0;
    while d < |s|
      invariant 0 <= d <= |s| && |r| == |s|
      invariant forall e :: 0 <= e < |s| ==> r[e] == if e < d then s[e][i := c[e]] else s[e]
    {
      r := r[d := r[d][i := c[d]]];
      d := d + 1;
    }
  }

  /** `for d: v[d] = s[d][i]`: entry `i` of every direction. */
  method TakeColumn<E>(s: seq<seq<E>>, i: nat) returns (v: seq<E>)
    requires forall d :: 0 <= d < |s| ==> i < |s[d]|
    ensures v == Column(s, i)
  {
    v := [];
    var d := 0;
    while d < |s|
      invariant 0 <= d <= |s| && |v| == d
      invariant forall e :: 0 <= e < d ==> v[e] == s[e][i]
    {
      v := v + [s[d][i]];
      d := d + 1;
    }
  }

  /** The main pass's adjoint seeds: the multiplier on the residual, a structural zero on
      every other output (so the auxiliary seeds are not counted twice). */
  method MultiplierSeeds<E(!new)>(o: SymOracle<E>, lam: seq<E>, iout: nat, numOut: nat) returns (r: seq<seq<E>>)
    requires numOut <= |o.zeroOut|
    ensures r == ResidualSeeds(o, lam, iout, numOut)
  {
    ghost var t := ResidualSeeds(o, lam, iout, numOut);
    r := [];
    var d := 0;
    while d < |lam|
      invariant 0 <= d <= |lam| && r == t[..d]
    {
      var row: seq<E> := [];
      var i := 0;
      while i < numOut
        invariant 0 <= i <= numOut && row == t[d][..i]
      {
        assert t[d][..i + 1] == t[d][..i] + [t[d][i]];
        row := row + [if i == iout then lam[d] else o.zeroOut[i]];
        i := i + 1;
      }
      assert row == t[d];
      assert t[..d + 1] == t[..d] + [t[d]];
      r := r + [row];
      d := d + 1;
    }
    assert r == t;
  }

  /** `asens.resize(nadj)`, every direction resized to `nIn` inputs, and the guess's
      entry kept aside (a structural zero when empty). */
  method PriorSens<E(!new)>(o: SymOracle<E>, asensIn: seq<seq<E>>, nadj: nat, nIn: nat, iin: nat)
    returns (asens: seq<seq<E>>, kept: seq<E>)
    requires iin < nIn && iin < |o.zeroIn|
    ensures asens == Prior(o, asensIn, nadj, nIn) && kept == KeptGuessSens(o, iin, nIn, asensIn, nadj)
  {
    asens := Resize(asensIn, nadj, []);
    kept := [];
    var d := 0;
    while d < nadj
      invariant 0 <= d <= nadj && |asens| == nadj && |kept| == d
      invariant forall e :: 0 <= e < nadj ==>
        asens[e] == if e < d then Prior(o, asensIn, nadj, nIn)[e] else Resize(asensIn, nadj, [])[e]
      invariant forall e :: 0 <= e < d ==> kept[e] == KeptGuessSens(o, iin, nIn, asensIn, nadj)[e]
    {
      asens := asens[d := Resize(asens[d], nIn, o.empty)];
      kept := kept + [if o.isEmpty(asens[d][iin]) then o.zeroIn[iin] else asens[d][iin]];
      d := d + 1;
    }
  }

  /** `for d, i != iin: a[d][i] += aux[d][i]`. */
  method AddAux<E>(o: SymOracle<E>, a: seq<seq<E>>, aux: seq<seq<E>>, iin: nat) returns (r: seq<seq<E>>)
    requires |aux| == |a| && forall d :: 0 <= d < |a| ==> |aux[d]| == |a[d]|
    ensures r == WithAux(o, a, aux, iin)
  {
    r := a;
    var d := 0;
    while d < |a|
      invariant 0 <= d <= |a| && |r| == |a|
      invariant forall e :: 0 <= e < |a| ==> r[e] == if e < d then WithAux(o, a, aux, iin)[e] else a[e]
    {
      var row := r[d];
      var i := 0;
      while i < |row|
        invariant 0 <= i <= |row| && |row| == |a[d]|
        invariant forall j :: 0 <= j < |row| ==> row[j] == if j < i then WithAux(o, a, aux, iin)[d][j] else a[d][j]
      {
        if i != iin {
          row := row[i := o.add(row[i], aux[d][i])];
        }
        i := i + 1;
      }
      r := r[d := row];
      d := d + 1;
    }
  }

  /**
   * The inputs and outputs of a derivative function: `arg`, then `res`, then one
   * concatenated seed per seed entry; one concatenated sensitivity per sensitivity entry.
   */
  function Signature<E>(horzcat: seq<E> -> E, arg: seq<E>, res: seq<E>,
                        seed: seq<seq<E>>, nSeed: nat, sens: seq<seq<E>>, nSens: nat): (sig: (seq<E>, seq<E>))
    requires Rows(seed, nSeed) && Rows(sens, nSens)
    ensures |sig.0| == |arg| + |res| + nSeed && |sig.1| == nSens
    ensures sig.0[..|arg|] == arg && sig.0[|arg|..|arg| + |res|] == res
    ensures forall i :: 0 <= i < nSeed ==> sig.0[|arg| + |res| + i] == horzcat(Column(seed, i))
    ensures forall i :: 0 <= i < nSens ==> sig.1[i] == horzcat(Column(sens, i))
  {
    var ins := arg + res + Columns(horzcat, seed, nSeed);
    assert ins[..|arg|] == arg && ins[|arg|..|arg| + |res|] == res;
    (ins, Columns(horzcat, sens, nSens))
  }

  /** One horizontal concatenation per entry: entry `i` of every direction, joined. */
  function Columns<E>(horzcat: seq<E> -> E, s: seq<seq<E>>, width: nat): (r: seq<E>)
    requires Rows(s, width)
    ensures |r| == width && forall i :: 0 <= i < width ==> r[i] == horzcat(Column(s, i))
  {
    seq(width, i requires 0 <= i < width => horzcat(Column(s, i)))
  }

  /** Builds the inputs and outputs of `Signature` column by column. */
  method DerivativeSignature<E>(horzcat: seq<E> -> E, arg: seq<E>, res: seq<E>,
                                seed: seq<seq<E>>, nSeed: nat, sens: seq<seq<E>>, nSens: nat)
    returns (ins: seq<E>, outs: seq<E>)
    requires Rows(seed, nSeed) && Rows(sens, nSens)
    ensures (ins, outs) == Signature(horzcat, arg, res, seed, nSeed, sens, nSens)
  {
    ins := AppendColumns(horzcat, arg + res, seed, nSeed);
    outs := AppendColumns(horzcat, [], sens, nSens);
    assert outs == Columns(horzcat, sens, nSens);
  }

  /** `for i < width: acc.push_back(horzcat(entry i of every direction))`. */
  method AppendColumns<E>(horzcat: seq<E> -> E, acc: seq<E>, s: seq<seq<E>>, width: nat) returns (r: seq<E>)
    requires Rows(s, width)
    ensures r == acc + Columns(horzcat, s, width)
  {
    r := acc;
    var i := 0;
    while i < width
      invariant 0 <= i <= width && |r| == |acc| + i && r[..|acc|] == acc
      invariant forall j :: 0 <= j < i ==> r[|acc| + j] == horzcat(Column(s, j))
    {
      r := r + [horzcat(Column(s, i))];
      i := i + 1;
    }
    ghost var c := Columns(horzcat, s, width);
    forall k | 0 <= k < |r| ensures r[k] == (acc + c)[k] {
      if k < |acc| {
        assert r[k] == r[..|acc|][k];
      } else {
        assert r[|acc| + (k - |acc|)] == c[k - |acc|];
      }
    }
  }

  /** What structural propagation needs of an initialised rootfinder: the oracle's
      propagation, the buffer lengths, the unknown's and the residual's indices, the
      system size and the Jacobian's pattern. */
  datatype Node = Node(bits: BitOracle, szIn: seq<nat>, szOut: seq<nat>, iin: nat, iout: nat, n: nat, pattern: Pattern) {
    function NIn(): nat { |szIn| }
    function NOut(): nat { |szOut| }
  }

  /** The unknown and the residual exist, both of length n, and the collaborators keep
      their shapes. */
  ghost predicate NodeOk(d: Node) {
    d.iin < d.NIn() && d.iout < d.NOut() && d.szIn[d.iin] == d.n && d.szOut[d.iout] == d.n &&
    BitShaped(d.bits, d.szIn, d.szOut) && SolveShaped(d.pattern)
  }

  /** tmp1 after the first forward pass: the residual's dependencies on the true inputs,
      the guess input being passed as null. */
  ghost function FwdResidualDeps(d: Node, m: seq<Bits>, A: seq<Ptr>): (r: seq<Bits>)
    requires NodeOk(d) && SlotsFit(A, d.szIn, |m|)
    ensures |r| == d.n
  {
    d.bits.fwd(Load(m, A, d.szIn)[d.iin := None], Wanted(d.NOut(), d.iout))[d.iout]
  }

  /** tmp2 after the structural solve: the unknown's dependencies. */
  ghost function FwdRootDeps(d: Node, m: seq<Bits>, A: seq<Ptr>): (r: seq<Bits>)
    requires NodeOk(d) && SlotsFit(A, d.szIn, |m|)
    ensures |r| == d.n
  {
    d.pattern.spsolve(Zeros(d.n), FwdResidualDeps(d, m, A), false)
  }

  /** The second forward pass: every output but the residual, with the unknown's
      dependencies passed as the guess input. */
  ghost function FwdAuxDeps(d: Node, m: seq<Bits>, A: seq<Ptr>, R: seq<Ptr>): (r: seq<seq<Bits>>)
    requires NodeOk(d) && SlotsFit(A, d.szIn, |m|) && |R| == d.NOut()
    ensures Sized(r, d.szOut)
  {
    d.bits.fwd(Load(m, A, d.szIn)[d.iin := Some(FwdRootDeps(d, m, A))], Mask(R[d.iout := None]))
  }

  /** The memory after the first forward pass of `sp_fwd`. */
  ghost function FwdResidualMemory(d: Node, m0: seq<Bits>, A: seq<Ptr>, w: nat): (m1: seq<Bits>)
    requires NodeOk(d) && SlotsFit(A, d.szIn, |m0|) && w + d.n <= |m0|
    ensures |m1| == |m0|
  {
    LoadNulled(m0, A, d.szIn, d.iin);
    OnlyAtSlots(d.NOut(), d.iout, w, d.szOut, |m0|);
    StoreAll(m0, OnlyAt(d.NOut(), d.iout, w), d.szOut,
             FwdResult(d.bits, m0, A[d.iin := None], OnlyAt(d.NOut(), d.iout, w), d.szIn))
  }

  /** The memory after the structural solve: tmp2 holds the solution for the right-hand
      side in tmp1 (transposed when `tr`). */
  ghost function SolvedMemory(d: Node, m: seq<Bits>, w: nat, tr: bool): (r: seq<Bits>)
    requires SolveShaped(d.pattern) && w + 2 * d.n <= |m|
    ensures |r| == |m|
  {
    Store(m, w + d.n, d.pattern.spsolve(Zeros(d.n), Region(m, w, d.n), tr))
  }

  /** The memory after the auxiliary forward pass. */
  ghost function FwdAuxMemory(d: Node, m: seq<Bits>, A: seq<Ptr>, R: seq<Ptr>, w: nat): (r: seq<Bits>)
    requires NodeOk(d) && SlotsFit(A, d.szIn, |m|) && SlotsFit(R, d.szOut, |m|) && w + 2 * d.n <= |m|
    ensures |r| == |m|
  {
    LoadRedirected(m, A, d.szIn, d.iin, w + d.n);
    NulledSlots(R, d.szOut, d.iout, |m|);
    StoreAll(m, R[d.iout := None], d.szOut, FwdResult(d.bits, m, A[d.iin := Some(w + d.n)], R[d.iout := None], d.szIn))
  }

  /** The memory after the first pass, the solve and the copy to the residual's buffer. */
  ghost function FwdRootMemory(d: Node, m0: seq<Bits>, A: seq<Ptr>, R: seq<Ptr>, w: nat): (r: seq<Bits>)
    requires NodeOk(d) && Layout(|m0|, A, d.szIn, R, d.szOut, w, d.n)
    ensures |r| == |m0|
  {
    FwdCopyMemory(d, FwdResidualMemory(d, m0, A, w), R[d.iout], w)
  }

  /** The memory after the structural solve and the copy of tmp2 into the residual's
      buffer `r`, when that is non-null. */
  ghost function FwdCopyMemory(d: Node, m1: seq<Bits>, r: Ptr, w: nat): (m3: seq<Bits>)
    requires SolveShaped(d.pattern) && w + 2 * d.n <= |m1| && SlotFits(r, d.n, |m1|)
    ensures |m3| == |m1|
  {
    var m2 := SolvedMemory(d, m1, w, false);
    if r.Some? then Store(m2, r.value, Region(m2, w + d.n, d.n)) else m2
  }

  /** The whole memory effect of `sp_fwd`, step by step. */
  ghost function SpFwdMemory(d: Node, m0: seq<Bits>, A: seq<Ptr>, R: seq<Ptr>, w: nat): (r: seq<Bits>)
    requires NodeOk(d) && Layout(|m0|, A, d.szIn, R, d.szOut, w, d.n)
    ensures |r| == |m0|
  {
    var m3 := FwdRootMemory(d, m0, A, R, w);
    if d.NOut() > 1 then FwdAuxMemory(d, m3, A, R, w) else m3
  }

  /** The first forward pass writes tmp1 and nothing else. */
  lemma FwdResidualEffect(d: Node, m0: seq<Bits>, A: seq<Ptr>, w: nat)
    requires NodeOk(d) && SlotsFit(A, d.szIn, |m0|) && w + d.n <= |m0|
    ensures Region(FwdResidualMemory(d, m0, A, w), w, d.n) == FwdResidualDeps(d, m0, A)
    ensures forall k :: 0 <= k < |m0| && !Inside(k, w, d.n) ==> FwdResidualMemory(d, m0, A, w)[k] == m0[k]
  {
    LoadNulled(m0, A, d.szIn, d.iin);
    OnlyAtSlots(d.NOut(), d.iout, w, d.szOut, |m0|);
    StoreAllRegion(m0, OnlyAt(d.NOut(), d.iout, w), d.szOut,
                   FwdResult(d.bits, m0, A[d.iin := None], OnlyAt(d.NOut(), d.iout, w), d.szIn), d.iout);
  }

  /** The auxiliary forward pass writes each auxiliary output's buffer with its
      dependencies and nothing outside them. */
  lemma FwdAuxEffect(d: Node, m: seq<Bits>, A: seq<Ptr>, R: seq<Ptr>, w: nat)
    requires NodeOk(d) && SlotsFit(A, d.szIn, |m|) && SlotsFit(R, d.szOut, |m|) && w + 2 * d.n <= |m|
    requires SlotsDisjoint(R, d.szOut)
    ensures forall i :: 0 <= i < d.NOut() && i != d.iout && R[i].Some? ==>
      Region(FwdAuxMemory(d, m, A, R, w), R[i].value, d.szOut[i])
      == d.bits.fwd(Load(m, A, d.szIn)[d.iin := Some(Region(m, w + d.n, d.n))], Mask(R[d.iout := None]))[i]
    ensures forall k :: 0 <= k < |m| && !InSlots(k, R[d.iout := None], d.szOut) ==> FwdAuxMemory(d, m, A, R, w)[k] == m[k]
  {
    LoadRedirected(m, A, d.szIn, d.iin, w + d.n);
    NulledSlots(R, d.szOut, d.iout, |m|);
    var outs := FwdResult(d.bits, m, A[d.iin := Some(w + d.n)], R[d.iout := None], d.szIn);
    forall i | 0 <= i < d.NOut() && i != d.iout && R[i].Some?
      ensures Region(FwdAuxMemory(d, m, A, R, w), R[i].value, d.szOut[i]) == outs[i]
    {
      StoreAllRegion(m, R[d.iout := None], d.szOut, outs, i);
    }
  }

  /** Memory agreeing outside the scratch vectors and the residual's buffer loads the
      same true inputs. */
  lemma InputsAgree(d: Node, m: seq<Bits>, m': seq<Bits>, A: seq<Ptr>, R: seq<Ptr>, w: nat, v: seq<Bits>)
    requires NodeOk(d) && |m| == |m'| && Layout(|m|, A, d.szIn, R, d.szOut, w, d.n)
    requires forall k :: 0 <= k < |m| && !Inside(k, w, 2 * d.n) && !(R[d.iout].Some? && Inside(k, R[d.iout].value, d.n)) ==>
      m'[k] == m[k]
    ensures forall j :: 0 <= j < |A| && A[j].Some? ==> Region(m', A[j].value, d.szIn[j]) == Region(m, A[j].value, d.szIn[j])
    ensures Load(m', A, d.szIn)[d.iin := Some(v)] == Load(m, A, d.szIn)[d.iin := Some(v)]
  {
    forall j | 0 <= j < |A| && A[j].Some?
      ensures Region(m', A[j].value, d.szIn[j]) == Region(m, A[j].value, d.szIn[j])
    {
      forall k | 0 <= k < |m| && Inside(k, A[j].value, d.szIn[j]) ensures m'[k] == m[k] {
        assert SlotApart(A[j], d.szIn[j], Some(w), 2 * d.n);
        assert SlotApart(A[j], d.szIn[j], R[d.iout], d.szOut[d.iout]);
      }
      RegionAgree(m', m, A[j].value, d.szIn[j]);
    }
    var l', l := Load(m', A, d.szIn)[d.iin := Some(v)], Load(m, A, d.szIn)[d.iin := Some(v)];
    assert forall j :: 0 <= j < |A| ==> l'[j] == l[j];
  }

  /** Before the auxiliary pass, tmp1 holds the residual's dependencies, tmp2 and the
      residual's buffer the unknown's, and nothing else has changed. */
  lemma FwdRootEffect(d: Node, m0: seq<Bits>, A: seq<Ptr>, R: seq<Ptr>, w: nat)
    requires NodeOk(d) && Layout(|m0|, A, d.szIn, R, d.szOut, w, d.n)
    ensures var m3 := FwdRootMemory(d, m0, A, R, w);
      && Region(m3, w, d.n) == FwdResidualDeps(d, m0, A)
      && Region(m3, w + d.n, d.n) == FwdRootDeps(d, m0, A)
      && (R[d.iout].Some? ==> Region(m3, R[d.iout].value, d.n) == FwdRootDeps(d, m0, A))
      && (forall k :: 0 <= k < |m0| && !Inside(k, w, 2 * d.n) && !(R[d.iout].Some? && Inside(k, R[d.iout].value, d.n)) ==>
            m3[k] == m0[k])
  {
    var m1 := FwdResidualMemory(d, m0, A, w);
    FwdResidualEffect(d, m0, A, w);
    assert SlotApart(R[d.iout], d.n, Some(w), 2 * d.n);
    if R[d.iout].Some? {
      FwdCopySomeEffect(d, m1, R[d.iout].value, w);
    } else {
      FwdCopyNoneEffect(d, m1, w);
    }
  }

  /** With a residual buffer at `a` apart from tmp1 and tmp2: tmp1 is kept, tmp2 and `a`'s
      buffer receive the solution for tmp1's contents, and everything else is kept. */
  lemma FwdCopySomeEffect(d: Node, m1: seq<Bits>, a: nat, w: nat)
    requires SolveShaped(d.pattern) && w + 2 * d.n <= |m1| && a + d.n <= |m1| && Apart(a, d.n, w, 2 * d.n)
    ensures var m3 := FwdCopyMemory(d, m1, Some(a), w);
            var dz := d.pattern.spsolve(Zeros(d.n), Region(m1, w, d.n), false);
      && Region(m3, w, d.n) == Region(m1, w, d.n) && Region(m3, w + d.n, d.n) == dz && Region(m3, a, d.n) == dz
      && (forall k :: 0 <= k < |m1| && !Inside(k, w + d.n, d.n) && !Inside(k, a, d.n) ==> m3[k] == m1[k])
  {
    FwdCopySomeKeeps(d, m1, a, w);
    FwdCopySomeSolved(d, m1, a, w);
    FwdCopySomeCopied(d, m1, a, w);
    FwdCopySomeFrame(d, m1, a, w);
  }

  /** Part of FwdCopySomeEffect: tmp1 is kept. */
  lemma FwdCopySomeKeeps(d: Node, m1: seq<Bits>, a: nat, w: nat)
    requires SolveShaped(d.pattern) && w + 2 * d.n <= |m1| && a + d.n <= |m1| && Apart(a, d.n, w, 2 * d.n)
    ensures Region(FwdCopyMemory(d, m1, Some(a), w), w, d.n) == Region(m1, w, d.n)
  {
    var dz := d.pattern.spsolve(Zeros(d.n), Region(m1, w, d.n), false);
    var m2 := SolvedMemory(d, m1, w, false);
    assert m2 == Store(m1, w + d.n, dz);
    assert FwdCopyMemory(d, m1, Some(a), w) == Store(m2, a, Region(m2, w + d.n, d.n));
    StoreThenCopyEffect(m1, w, d.n, dz, a);
  }

  /** Part of FwdCopySomeEffect: tmp2 receives the solution. */
  lemma FwdCopySomeSolved(d: Node, m1: seq<Bits>, a: nat, w: nat)
    requires SolveShaped(d.pattern) && w + 2 * d.n <= |m1| && a + d.n <= |m1| && Apart(a, d.n, w, 2 * d.n)
    ensures Region(FwdCopyMemory(d, m1, Some(a), w), w + d.n, d.n) == d.pattern.spsolve(Zeros(d.n), Region(m1, w, d.n), false)
  {
    var dz := d.pattern.spsolve(Zeros(d.n), Region(m1, w, d.n), false);
    var m2 := SolvedMemory(d, m1, w, false);
    assert m2 == Store(m1, w + d.n, dz);
    assert FwdCopyMemory(d, m1, Some(a), w) == Store(m2, a, Region(m2, w + d.n, d.n));
    StoreThenCopyEffect(m1, w, d.n, dz, a);
  }

  /** Part of FwdCopySomeEffect: the residual buffer receives the solution. */
  lemma FwdCopySomeCopied(d: Node, m1: seq<Bits>, a: nat, w: nat)
    requires SolveShaped(d.pattern) && w + 2 * d.n <= |m1| && a + d.n <= |m1| && Apart(a, d.n, w, 2 * d.n)
    ensures Region(FwdCopyMemory(d, m1, Some(a), w), a, d.n) == d.pattern.spsolve(Zeros(d.n), Region(m1, w, d.n), false)
  {
    var dz := d.pattern.spsolve(Zeros(d.n), Region(m1, w, d.n), false);
    var m2 := SolvedMemory(d, m1, w, false);
    assert m2 == Store(m1, w + d.n, dz);
    assert FwdCopyMemory(d, m1, Some(a), w) == Store(m2, a, Region(m2, w + d.n, d.n));
    StoreThenCopyEffect(m1, w, d.n, dz, a);
  }

  /** The frame part of FwdCopySomeEffect. */
  lemma FwdCopySomeFrame(d: Node, m1: seq<Bits>, a: nat, w: nat)
    requires SolveShaped(d.pattern) && w + 2 * d.n <= |m1| && a + d.n <= |m1| && Apart(a, d.n, w, 2 * d.n)
    ensures var m3 := FwdCopyMemory(d, m1, Some(a), w);
      forall k :: 0 <= k < |m1| && !Inside(k, w + d.n, d.n) && !Inside(k, a, d.n) ==> m3[k] == m1[k]
  {
    var dz := d.pattern.spsolve(Zeros(d.n), Region(m1, w, d.n), false);
    StoreThenCopyEffect(m1, w, d.n, dz, a);
  }

  /** Writing `v` to `[w + n, w + 2n)` and then copying that region to `a` (apart from
      `[w, w + 2n)`): both hold `v`, `[w, w + n)` and everything else is as it was. */
  lemma StoreThenCopyEffect(m: seq<Bits>, w: nat, n: nat, v: seq<Bits>, a: nat)
    requires w + 2 * n <= |m| && |v| == n && a + n <= |m| && Apart(a, n, w, 2 * n)
    ensures var m2 := Store(m, w + n, v);
            var m3 := Store(m2, a, Region(m2, w + n, n));
      && Region(m3, w, n) == Region(m, w, n) && Region(m3, w + n, n) == v && Region(m3, a, n) == v
      && (forall k :: 0 <= k < |m| && !Inside(k, w + n, n) && !Inside(k, a, n) ==> m3[k] == m[k])
  {
    assert Region(Store(m, w + n, v), w + n, n) == v;
    StoreTwiceEffect(m, w, n, v, Some(a));
  }

  /** Without a residual buffer: tmp1 is kept, tmp2 receives the solution for tmp1's
      contents, and everything else is kept. */
  lemma FwdCopyNoneEffect(d: Node, m1: seq<Bits>, w: nat)
    requires SolveShaped(d.pattern) && w + 2 * d.n <= |m1|
    ensures var m3 := FwdCopyMemory(d, m1, None, w);
            var dz := d.pattern.spsolve(Zeros(d.n), Region(m1, w, d.n), false);
      && Region(m3, w, d.n) == Region(m1, w, d.n) && Region(m3, w + d.n, d.n) == dz
      && (forall k :: 0 <= k < |m1| && !Inside(k, w + d.n, d.n) ==> m3[k] == m1[k])
  {
    var dz := d.pattern.spsolve(Zeros(d.n), Region(m1, w, d.n), false);
    assert FwdCopyMemory(d, m1, None, w) == Store(m1, w + d.n, dz) by {
      assert FwdCopyMemory(d, m1, None, w) == SolvedMemory(d, m1, w, false);
    }
    StoreTwiceEffect(m1, w, d.n, dz, None);
  }

  /** Writing `v` to `[w + n, w + 2n)` and then, when `r` is set, to `r`'s buffer (apart
      from `[w, w + 2n)`): both hold `v`, `[w, w + n)` and everything else is as it was. */
  lemma StoreTwiceEffect(m: seq<Bits>, w: nat, n: nat, v: seq<Bits>, r: Ptr)
    requires w + 2 * n <= |m| && |v| == n && SlotFits(r, n, |m|) && SlotApart(r, n, Some(w), 2 * n)
    ensures var m2 := Store(m, w + n, v);
            var m3 := if r.Some? then Store(m2, r.value, v) else m2;
      && Region(m3, w, n) == Region(m, w, n) && Region(m3, w + n, n) == v
      && (r.Some? ==> Region(m3, r.value, n) == v)
      && (forall k :: 0 <= k < |m| && !Inside(k, w + n, n) && !(r.Some? && Inside(k, r.value, n)) ==> m3[k] == m[k])
  {
    var m2 := Store(m, w + n, v);
    RegionAfterStore(m, w + n, v, w, n);
    if r.Some? {
      RegionAfterStore(m2, r.value, v, w, n);
      RegionAfterStore(m2, r.value, v, w + n, n);
    }
  }

  /**
   * What `sp_fwd` leaves in memory `m`, starting from `m0`: tmp1 holds the residual's
   * dependencies, tmp2 and the residual's buffer the unknown's, every auxiliary
   * output's buffer its dependencies through the unknown; nothing else changes.
   */
  ghost predicate FwdEffect(d: Node, m0: seq<Bits>, m: seq<Bits>, A: seq<Ptr>, R: seq<Ptr>, w: nat)
    requires NodeOk(d) && Layout(|m0|, A, d.szIn, R, d.szOut, w, d.n) && |m| == |m0|
  {
    && Region(m, w, d.n) == FwdResidualDeps(d, m0, A)
    && Region(m, w + d.n, d.n) == FwdRootDeps(d, m0, A)
    && (R[d.iout].Some? ==> Region(m, R[d.iout].value, d.n) == FwdRootDeps(d, m0, A))
    && (forall i :: 0 <= i < d.NOut() && i != d.iout && R[i].Some? ==>
          Region(m, R[i].value, d.szOut[i]) == FwdAuxDeps(d, m0, A, R)[i])
    && (forall k :: 0 <= k < |m0| && !Inside(k, w, 2 * d.n) && !InSlots(k, R, d.szOut) ==> m[k] == m0[k])
  }

  /** Everything `sp_fwd` promises about the memory. */
  lemma SpFwdMemoryEffect(d: Node, m0: seq<Bits>, A: seq<Ptr>, R: seq<Ptr>, w: nat)
    requires NodeOk(d) && Layout(|m0|, A, d.szIn, R, d.szOut, w, d.n)
    ensures FwdEffect(d, m0, SpFwdMemory(d, m0, A, R, w), A, R, w)
  {
    var n := d.n;
    var m3 := FwdRootMemory(d, m0, A, R, w);
    FwdRootEffect(d, m0, A, R, w);
    forall k | 0 <= k < |m0| && R[d.iout].Some? && Inside(k, R[d.iout].value, n) ensures InSlots(k, R, d.szOut) {
      assert Inside(k, R[d.iout].value, d.szOut[d.iout]);
    }
    if d.NOut() > 1 {
      FwdAuxAfterRoot(d, m0, m3, A, R, w);
    }
  }

  /** The auxiliary pass, run on the memory left by the solve, sees the caller's true
      inputs and the unknown's dependencies, and leaves the scratch vectors and the
      residual's buffer alone. */
  lemma FwdAuxAfterRoot(d: Node, m0: seq<Bits>, m3: seq<Bits>, A: seq<Ptr>, R: seq<Ptr>, w: nat)
    requires NodeOk(d) && Layout(|m0|, A, d.szIn, R, d.szOut, w, d.n) && d.NOut() > 1
    requires |m3| == |m0|
    requires Region(m3, w + d.n, d.n) == FwdRootDeps(d, m0, A)
    requires forall k :: 0 <= k < |m0| && !Inside(k, w, 2 * d.n) && !(R[d.iout].Some? && Inside(k, R[d.iout].value, d.n)) ==>
      m3[k] == m0[k]
    ensures var m4 := FwdAuxMemory(d, m3, A, R, w);
      && Region(m4, w, d.n) == Region(m3, w, d.n)
      && Region(m4, w + d.n, d.n) == Region(m3, w + d.n, d.n)
      && (R[d.iout].Some? ==> Region(m4, R[d.iout].value, d.n) == Region(m3, R[d.iout].value, d.n))
      && (forall i :: 0 <= i < d.NOut() && i != d.iout && R[i].Some? ==>
            Region(m4, R[i].value, d.szOut[i]) == FwdAuxDeps(d, m0, A, R)[i])
      && (forall k :: 0 <= k < |m0| && !InSlots(k, R, d.szOut) ==> m4[k] == m3[k])
  {
    var n := d.n;
    var dz := FwdRootDeps(d, m0, A);
    var m4 := FwdAuxMemory(d, m3, A, R, w);
    FwdAuxEffect(d, m3, A, R, w);
    InputsAgree(d, m0, m3, A, R, w, dz);
    AuxSlotsAvoid(R, d.szOut, d.iout, w, n);
    RegionAgree(m3, m4, w, n);
    RegionAgree(m3, m4, w + n, n);
    if R[d.iout].Some? {
      RegionAgree(m3, m4, R[d.iout].value, n);
    }
  }

  /**
   * `sp_fwd`: forward structural propagation. `arg`/`res` hold the caller's pointers in
   * their first n_in/n_out slots and lend the next n_in/n_out slots as `arg1`/`res1`;
   * the scratch vectors are tmp1 = [w, w+n) and tmp2 = [w+n, w+2n).
   * The residual's dependencies on the true inputs (guess input null, only tmp1 asked
   * for) are solved, not transposed, into a zeroed tmp2, copied to `res[iout]` when that
   * is non-null, and, when there are auxiliary outputs, fed as the guess input of a
   * second pass that writes every other output. Nothing outside the scratch vectors and
   * the output buffers changes.
   */
  method SpFwd(d: Node, arg: array<Ptr>, res: array<Ptr>, mem: array<Bits>, w: nat)
    requires NodeOk(d) && Separate(arg, res, mem) && arg.Length >= 2 * d.NIn() && res.Length >= 2 * d.NOut()
    requires Layout(mem.Length, arg[..d.NIn()], d.szIn, res[..d.NOut()], d.szOut, w, d.n)
    modifies arg, res, mem
    ensures arg[..d.NIn()] == old(arg[..d.NIn()]) && arg[2 * d.NIn()..] == old(arg[2 * d.NIn()..])
    ensures res[..d.NOut()] == old(res[..d.NOut()]) && res[2 * d.NOut()..] == old(res[2 * d.NOut()..])
    ensures arg[d.NIn()..2 * d.NIn()] == old(arg[..d.NIn()])[d.iin := if d.NOut() > 1 then Some(w + d.n) else None]
    ensures res[d.NOut()..2 * d.NOut()] ==
      if d.NOut() > 1 then old(res[..d.NOut()])[d.iout := None] else OnlyAt(d.NOut(), d.iout, w)
    ensures FwdEffect(d, old(mem[..]), mem[..], arg[..d.NIn()], res[..d.NOut()], w)
  {
    ghost var m0, A, R := mem[..], arg[..d.NIn()], res[..d.NOut()];
    // Propagate dependencies through the function
    FwdResidualPass(d, arg, res, mem, w);
    // "Solve" in order to propagate to z
    SolveInto(d, mem, w, false);
    if res[d.iout].Some? {
      WriteRegion(mem, res[d.iout].value, mem[w + d.n..w + 2 * d.n]);
    }
    assert mem[..] == FwdRootMemory(d, m0, A, R, w);
    // Propagate to auxiliary outputs
    if d.NOut() > 1 {
      FwdAuxPass(d, arg, res, mem, w);
    }
    SpFwdMemoryEffect(d, m0, A, R, w);
  }

  /** The first step of `sp_fwd`: with the guess input null and only tmp1 asked for, the
      oracle writes the residual's dependencies. */
  method FwdResidualPass(d: Node, arg: array<Ptr>, res: array<Ptr>, mem: array<Bits>, w: nat)
    requires NodeOk(d) && Separate(arg, res, mem)
    requires arg.Length >= 2 * d.NIn() && res.Length >= 2 * d.NOut()
    requires SlotsFit(arg[..d.NIn()], d.szIn, mem.Length) && w + d.n <= mem.Length
    modifies arg, res, mem
    ensures arg[..d.NIn()] == old(arg[..d.NIn()]) && arg[2 * d.NIn()..] == old(arg[2 * d.NIn()..])
    ensures res[..d.NOut()] == old(res[..d.NOut()]) && res[2 * d.NOut()..] == old(res[2 * d.NOut()..])
    ensures arg[d.NIn()..2 * d.NIn()] == old(arg[..d.NIn()])[d.iin := None]
    ensures res[d.NOut()..2 * d.NOut()] == OnlyAt(d.NOut(), d.iout, w)
    ensures mem[..] == FwdResidualMemory(d, old(mem[..]), arg[..d.NIn()], w)
  {
    var numIn, numOut := d.NIn(), d.NOut();
    var A := arg[..numIn];
    ghost var m, R, argTail, resTail := mem[..], res[..numOut], arg[2 * numIn..], res[2 * numOut..];
    WriteSlots(arg, numIn, A[d.iin := None]);
    assert arg[..numIn] == A && arg[2 * numIn..] == argTail;
    WriteSlots(res, numOut, OnlyAt(numOut, d.iout, w));
    assert res[..numOut] == R && res[2 * numOut..] == resTail;
    var args, ress := arg[numIn..2 * numIn], res[numOut..2 * numOut];
    assert args == A[d.iin := None] && ress == OnlyAt(numOut, d.iout, w);
    LoadNulled(m, A, d.szIn, d.iin);
    OnlyAtSlots(numOut, d.iout, w, d.szOut, |m|);
    CallFwd(d.bits, args, ress, d.szIn, d.szOut, mem);
    assert mem[..] == FwdResidualMemory(d, m, A, w);
  }

  /** The structural solve: tmp2 is zeroed, then receives the dependencies of the
      solution for the right-hand side in tmp1 (which the zeroing does not touch, so
      it is read first). */
  method SolveInto(d: Node, mem: array<Bits>, w: nat, tr: bool)
    requires SolveShaped(d.pattern) && w + 2 * d.n <= mem.Length
    modifies mem
    ensures mem[..] == SolvedMemory(d, old(mem[..]), w, tr)
  {
    ghost var m0 := mem[..];
    var rhs := mem[w..w + d.n];
    assert rhs == Region(m0, w, d.n);
    WriteRegion(mem, w + d.n, Zeros(d.n));
    var x := d.pattern.spsolve(Zeros(d.n), rhs, tr);
    StoreOver(m0, w + d.n, Zeros(d.n), x);
    WriteRegion(mem, w + d.n, x);
  }

  /** The last step of `sp_fwd`: with tmp2 as the guess input, the oracle writes every
      output but the residual. */
  method FwdAuxPass(d: Node, arg: array<Ptr>, res: array<Ptr>, mem: array<Bits>, w: nat)
    requires NodeOk(d) && Separate(arg, res, mem)
    requires arg.Length >= 2 * d.NIn() && res.Length >= 2 * d.NOut()
    requires SlotsFit(arg[..d.NIn()], d.szIn, mem.Length) && SlotsFit(res[..d.NOut()], d.szOut, mem.Length)
    requires w + 2 * d.n <= mem.Length
    modifies arg, res, mem
    ensures arg[..d.NIn()] == old(arg[..d.NIn()]) && arg[2 * d.NIn()..] == old(arg[2 * d.NIn()..])
    ensures res[..d.NOut()] == old(res[..d.NOut()]) && res[2 * d.NOut()..] == old(res[2 * d.NOut()..])
    ensures arg[d.NIn()..2 * d.NIn()] == old(arg[..d.NIn()])[d.iin := Some(w + d.n)]
    ensures res[d.NOut()..2 * d.NOut()] == old(res[..d.NOut()])[d.iout := None]
    ensures mem[..] == FwdAuxMemory(d, old(mem[..]), arg[..d.NIn()], res[..d.NOut()], w)
  {
    var numIn, numOut := d.NIn(), d.NOut();
    var A, R := arg[..numIn], res[..numOut];
    ghost var m, argTail, resTail := mem[..], arg[2 * numIn..], res[2 * numOut..];
    WriteSlots(arg, numIn, A[d.iin := Some(w + d.n)]);
    assert arg[..numIn] == A && arg[2 * numIn..] == argTail;
    WriteSlots(res, numOut, R[d.iout := None]);
    assert res[..numOut] == R && res[2 * numOut..] == resTail;
    var args, ress := arg[numIn..2 * numIn], res[numOut..2 * numOut];
    assert args == A[d.iin := Some(w + d.n)] && ress == R[d.iout := None];
    LoadRedirected(m, A, d.szIn, d.iin, w + d.n);
    NulledSlots(R, d.szOut, d.iout, |m|);
    CallFwd(d.bits, args, ress, d.szIn, d.szOut, mem);
    assert mem[..] == FwdAuxMemory(d, m, A, R, w);
  }

  /** The slots written by an auxiliary pass avoid the scratch vectors and the residual's
      buffer, and lie inside the caller's output buffers. */
  lemma AuxSlotsAvoid(R: seq<Ptr>, szOut: seq<nat>, iout: nat, w: nat, n: nat)
    requires |R| == |szOut| && iout < |R| && szOut[iout] == n
    requires SlotsDisjoint(R, szOut) && SlotsAvoid(R, szOut, w, 2 * n)
    ensures forall k :: InSlots(k, R[iout := None], szOut) ==>
      InSlots(k, R, szOut) && !Inside(k, w, 2 * n) && !(R[iout].Some? && Inside(k, R[iout].value, n))
  {
    forall k | InSlots(k, R[iout := None], szOut)
      ensures InSlots(k, R, szOut) && !Inside(k, w, 2 * n) && !(R[iout].Some? && Inside(k, R[iout].value, n))
    {
      var j :| 0 <= j < |R| && R[iout := None][j].Some? && Inside(k, R[iout := None][j].value, szOut[j]);
      assert SlotApart(R[j], szOut[j], Some(w), 2 * n);
      assert SlotApart(R[j], szOut[j], R[iout], szOut[iout]);
    }
  }

  /** What a callee reads through a pointer array whose only non-null slot `i` holds `v`. */
  function Single(count: nat, i: nat, v: seq<Bits>): (r: seq<Option<seq<Bits>>>)
    ensures |r| == count && forall j :: 0 <= j < count ==> r[j] == (if j == i then Some(v) else None)
  {
    seq(count, j => if j == i then Some(v) else None)
  }

  /** The seed found in the residual's buffer when `sp_rev` starts (zero when it is null). */
  ghost function RevSeed(d: Node, m: seq<Bits>, R: seq<Ptr>): (r: seq<Bits>)
    requires NodeOk(d) && SlotsFit(R, d.szOut, |m|)
    ensures |r| == d.n
  {
    if R[d.iout].Some? then Region(m, R[d.iout].value, d.n) else Zeros(d.n)
  }

  /** The auxiliary reverse pass: the other outputs' seeds pushed back to the inputs, the
      unknown's slot receiving on top of the residual's seed. */
  ghost function RevAux(d: Node, m: seq<Bits>, A: seq<Ptr>, R: seq<Ptr>): (r: (seq<seq<Bits>>, seq<seq<Bits>>))
    requires NodeOk(d) && SlotsFit(A, d.szIn, |m|) && SlotsFit(R, d.szOut, |m|)
    ensures Sized(r.0, d.szIn) && Sized(r.1, d.szOut)
  {
    d.bits.rev(Load(m, A, d.szIn)[d.iin := Some(RevSeed(d, m, R))], Load(m, R, d.szOut)[d.iout := None])
  }

  /** tmp1 when the transposed solve starts: the residual's seed, plus what the auxiliary
      outputs' seeds contribute when there are any. */
  ghost function RevResidualSeed(d: Node, m: seq<Bits>, A: seq<Ptr>, R: seq<Ptr>): (r: seq<Bits>)
    requires NodeOk(d) && SlotsFit(A, d.szIn, |m|) && SlotsFit(R, d.szOut, |m|)
    ensures |r| == d.n
  {
    if d.NOut() > 1 then RevAux(d, m, A, R).0[d.iin] else RevSeed(d, m, R)
  }

  /** tmp2 after the transposed solve: the seed of the residual for the final pass. */
  ghost function RevMultiplier(d: Node, m: seq<Bits>, A: seq<Ptr>, R: seq<Ptr>): (r: seq<Bits>)
    requires NodeOk(d) && SlotsFit(A, d.szIn, |m|) && SlotsFit(R, d.szOut, |m|)
    ensures |r| == d.n
  {
    d.pattern.spsolve(Zeros(d.n), RevResidualSeed(d, m, A, R), true)
  }

  /** What the final reverse pass reads through the true inputs' buffers (the guess input
      is null). */
  ghost function RevInputsSeen(d: Node, m: seq<Bits>, A: seq<Ptr>, R: seq<Ptr>): (r: seq<Option<seq<Bits>>>)
    requires NodeOk(d) && SlotsFit(A, d.szIn, |m|) && SlotsFit(R, d.szOut, |m|)
    ensures |r| == |A|
  {
    if d.NOut() > 1 then
      seq(|A|, i requires 0 <= i < |A| => if i != d.iin && A[i].Some? then Some(RevAux(d, m, A, R).0[i]) else None)
    else
      Load(m, A, d.szIn)[d.iin := None]
  }

  /** The final reverse pass: the multiplier, as the residual's only seed, pushed back to
      the true inputs. */
  ghost function RevMain(d: Node, m: seq<Bits>, A: seq<Ptr>, R: seq<Ptr>): (r: (seq<seq<Bits>>, seq<seq<Bits>>))
    requires NodeOk(d) && SlotsFit(A, d.szIn, |m|) && SlotsFit(R, d.szOut, |m|)
    ensures Sized(r.0, d.szIn) && Sized(r.1, d.szOut)
  {
    d.bits.rev(RevInputsSeen(d, m, A, R), Single(d.NOut(), d.iout, RevMultiplier(d, m, A, R)))
  }

  /** The memory after the residual's seed is moved into tmp1. */
  ghost function RevSeedMemory(d: Node, m: seq<Bits>, R: seq<Ptr>, w: nat): (r: seq<Bits>)
    requires NodeOk(d) && SlotsFit(R, d.szOut, |m|) && w + d.n <= |m|
    ensures |r| == |m|
  {
    if R[d.iout].Some? then Store(Store(m, w, Region(m, R[d.iout].value, d.n)), R[d.iout].value, Zeros(d.n))
    else Store(m, w, Zeros(d.n))
  }

  /** The memory after the auxiliary reverse pass, tmp1 standing for the unknown. */
  ghost function RevAuxMemory(d: Node, m: seq<Bits>, A: seq<Ptr>, R: seq<Ptr>, w: nat): (r: seq<Bits>)
    requires NodeOk(d) && SlotsFit(A, d.szIn, |m|) && SlotsFit(R, d.szOut, |m|) && w + d.n <= |m|
    ensures |r| == |m|
  {
    LoadRedirected(m, A, d.szIn, d.iin, w);
    NulledSlots(R, d.szOut, d.iout, |m|);
    var rr := RevResult(d.bits, m, A[d.iin := Some(w)], R[d.iout := None], d.szIn, d.szOut);
    StoreAll(StoreAll(m, A[d.iin := Some(w)], d.szIn, rr.0), R[d.iout := None], d.szOut, rr.1)
  }

  /** The memory after the final reverse pass, tmp2 being the residual's seed. */
  ghost function RevMainMemory(d: Node, m: seq<Bits>, A: seq<Ptr>, w: nat): (r: seq<Bits>)
    requires NodeOk(d) && SlotsFit(A, d.szIn, |m|) && w + 2 * d.n <= |m|
    ensures |r| == |m|
  {
    LoadNulled(m, A, d.szIn, d.iin);
    OnlyAtSlots(d.NOut(), d.iout, w + d.n, d.szOut, |m|);
    var rr := RevResult(d.bits, m, A[d.iin := None], OnlyAt(d.NOut(), d.iout, w + d.n), d.szIn, d.szOut);
    StoreAll(StoreAll(m, A[d.iin := None], d.szIn, rr.0), OnlyAt(d.NOut(), d.iout, w + d.n), d.szOut, rr.1)
  }

  /** The memory when the transposed solve starts. */
  ghost function RevBeforeSolveMemory(d: Node, m0: seq<Bits>, A: seq<Ptr>, R: seq<Ptr>, w: nat): (r: seq<Bits>)
    requires NodeOk(d) && Layout(|m0|, A, d.szIn, R, d.szOut, w, d.n)
    ensures |r| == |m0|
  {
    var m1 := RevSeedMemory(d, m0, R, w);
    if d.NOut() > 1 then RevAuxMemory(d, m1, A, R, w) else m1
  }

  /** The whole memory effect of `sp_rev`, step by step. */
  ghost function SpRevMemory(d: Node, m0: seq<Bits>, A: seq<Ptr>, R: seq<Ptr>, w: nat): (r: seq<Bits>)
    requires NodeOk(d) && Layout(|m0|, A, d.szIn, R, d.szOut, w, d.n)
    ensures |r| == |m0|
  {
    RevMainMemory(d, SolvedMemory(d, RevBeforeSolveMemory(d, m0, A, R, w), w, true), A, w)
  }

  /** Moving the seed: tmp1 gets it, the residual's buffer is cleared, and the other
      buffers read as before. */
  lemma RevSeedEffect(d: Node, m0: seq<Bits>, A: seq<Ptr>, R: seq<Ptr>, w: nat)
    requires NodeOk(d) && Layout(|m0|, A, d.szIn, R, d.szOut, w, d.n)
    ensures var m1 := RevSeedMemory(d, m0, R, w);
      && Region(m1, w, d.n) == RevSeed(d, m0, R)
      && (R[d.iout].Some? ==> Region(m1, R[d.iout].value, d.n) == Zeros(d.n))
      && (forall k :: 0 <= k < |m0| && !Inside(k, w, d.n) && !(R[d.iout].Some? && Inside(k, R[d.iout].value, d.n)) ==>
            m1[k] == m0[k])
      && Load(m1, A, d.szIn) == Load(m0, A, d.szIn)
      && Load(m1, R[d.iout := None], d.szOut) == Load(m0, R, d.szOut)[d.iout := None]
  {
    var n := d.n;
    var m1 := RevSeedMemory(d, m0, R, w);
    if R[d.iout].Some? {
      assert SlotApart(R[d.iout], d.szOut[d.iout], Some(w), 2 * n);
      RegionAfterStore(Store(m0, w, Region(m0, R[d.iout].value, n)), R[d.iout].value, Zeros(n), w, n);
    }
    AvoidSub(A, d.szIn, w, n, w, n);
    assert forall i :: 0 <= i < |A| ==> SlotApart(A[i], d.szIn[i], R[d.iout], d.szOut[d.iout]);
    LoadUnchanged(m0, m1, A, d.szIn, w, n, R[d.iout], n);
    NulledSlots(R, d.szOut, d.iout, |m0|);
    AvoidSub(R, d.szOut, w, n, w, n);
    AvoidSub(R[d.iout := None], d.szOut, w, n, w, n);
    assert forall i :: 0 <= i < |R| ==> SlotApart(R[d.iout := None][i], d.szOut[i], R[d.iout], n) by {
      forall i | 0 <= i < |R| ensures SlotApart(R[d.iout := None][i], d.szOut[i], R[d.iout], n) {
        if i != d.iout {
          assert SlotApart(R[i], d.szOut[i], R[d.iout], d.szOut[d.iout]);
        }
      }
    }
    LoadUnchanged(m0, m1, R[d.iout := None], d.szOut, w, n, R[d.iout], n);
    LoadNulled(m0, R, d.szOut, d.iout);
  }

  /** The auxiliary reverse pass writes tmp1, the other inputs' buffers and the other
      outputs' buffers with what the oracle returns, and nothing else. */
  lemma RevAuxEffect(d: Node, m: seq<Bits>, A: seq<Ptr>, R: seq<Ptr>, w: nat)
    requires NodeOk(d) && Layout(|m|, A, d.szIn, R, d.szOut, w, d.n) && SlotsDisjoint(A, d.szIn)
    ensures var m2 := RevAuxMemory(d, m, A, R, w);
      var rr := d.bits.rev(Load(m, A, d.szIn)[d.iin := Some(Region(m, w, d.n))], Load(m, R[d.iout := None], d.szOut));
      && Region(m2, w, d.n) == rr.0[d.iin]
      && (forall i :: 0 <= i < d.NIn() && i != d.iin && A[i].Some? ==> Region(m2, A[i].value, d.szIn[i]) == rr.0[i])
      && (forall i :: 0 <= i < d.NOut() && i != d.iout && R[i].Some? ==> Region(m2, R[i].value, d.szOut[i]) == rr.1[i])
      && (forall k :: 0 <= k < |m| && !InSlots(k, A[d.iin := Some(w)], d.szIn) && !InSlots(k, R[d.iout := None], d.szOut) ==>
            m2[k] == m[k])
  {
    var n := d.n;
    var A', R' := A[d.iin := Some(w)], R[d.iout := None];
    LoadRedirected(m, A, d.szIn, d.iin, w);
    AvoidSub(A, d.szIn, w, n, w, n);
    RedirectedSlots(A, d.szIn, d.iin, w, |m|);
    NulledSlots(R, d.szOut, d.iout, |m|);
    assert SlotsApart(A', d.szIn, R', d.szOut) by {
      forall i, j | 0 <= i < |A'| && 0 <= j < |R'| ensures SlotApart(A'[i], d.szIn[i], R'[j], d.szOut[j]) {
        if i == d.iin {
          assert SlotApart(R[j], d.szOut[j], Some(w), 2 * n);
        } else {
          assert SlotApart(A[i], d.szIn[i], R[j], d.szOut[j]);
        }
      }
    }
    var rr := RevResult(d.bits, m, A', R', d.szIn, d.szOut);
    StoreBoth(m, A', d.szIn, rr.0, R', d.szOut, rr.1);
    assert A'[d.iin] == Some(w);
  }

  /** The final reverse pass writes tmp2 and the true inputs' buffers with what the oracle
      returns, and nothing else. */
  lemma RevMainEffect(d: Node, m: seq<Bits>, A: seq<Ptr>, w: nat)
    requires NodeOk(d) && SlotsFit(A, d.szIn, |m|) && w + 2 * d.n <= |m|
    requires SlotsDisjoint(A, d.szIn) && SlotsAvoid(A, d.szIn, w, 2 * d.n)
    ensures var m4 := RevMainMemory(d, m, A, w);
      var rr := d.bits.rev(Load(m, A, d.szIn)[d.iin := None], Single(d.NOut(), d.iout, Region(m, w + d.n, d.n)));
      && Region(m4, w + d.n, d.n) == rr.1[d.iout]
      && (forall i :: 0 <= i < d.NIn() && i != d.iin && A[i].Some? ==> Region(m4, A[i].value, d.szIn[i]) == rr.0[i])
      && (forall k :: 0 <= k < |m| && !Inside(k, w + d.n, d.n) && !InSlots(k, A[d.iin := None], d.szIn) ==> m4[k] == m[k])
  {
    var Q := OnlyAt(d.NOut(), d.iout, w + d.n);
    RevMainSlots(d, m, A, w);
    OnlyAtSlots(d.NOut(), d.iout, w + d.n, d.szOut, |m|);
    var rr := RevResult(d.bits, m, A[d.iin := None], Q, d.szIn, d.szOut);
    StoreBoth(m, A[d.iin := None], d.szIn, rr.0, Q, d.szOut, rr.1);
  }

  /** The pointer arrays of the final reverse pass: the true inputs, and tmp2 as the only
      seed, all apart. */
  lemma RevMainSlots(d: Node, m: seq<Bits>, A: seq<Ptr>, w: nat)
    requires NodeOk(d) && SlotsFit(A, d.szIn, |m|) && w + 2 * d.n <= |m|
    requires SlotsDisjoint(A, d.szIn) && SlotsAvoid(A, d.szIn, w, 2 * d.n)
    ensures SlotsFit(A[d.iin := None], d.szIn, |m|) && SlotsDisjoint(A[d.iin := None], d.szIn)
    ensures SlotsFit(OnlyAt(d.NOut(), d.iout, w + d.n), d.szOut, |m|)
    ensures SlotsDisjoint(OnlyAt(d.NOut(), d.iout, w + d.n), d.szOut)
    ensures SlotsApart(A[d.iin := None], d.szIn, OnlyAt(d.NOut(), d.iout, w + d.n), d.szOut)
    ensures Load(m, A[d.iin := None], d.szIn) == Load(m, A, d.szIn)[d.iin := None]
    ensures Load(m, OnlyAt(d.NOut(), d.iout, w + d.n), d.szOut) == Single(d.NOut(), d.iout, Region(m, w + d.n, d.n))
  {
    var n := d.n;
    var nOut := d.NOut();
    var Q := OnlyAt(nOut, d.iout, w + n);
    LoadNulled(m, A, d.szIn, d.iin);
    OnlyAtSlots(nOut, d.iout, w + n, d.szOut, |m|);
    NulledSlots(A, d.szIn, d.iin, |m|);
    var seen := Load(m, Q, d.szOut);
    assert forall j :: 0 <= j < nOut ==> seen[j] == Single(nOut, d.iout, Region(m, w + n, n))[j];
    forall i, j | 0 <= i < |A| && 0 <= j < nOut ensures SlotApart(A[d.iin := None][i], d.szIn[i], Q[j], d.szOut[j]) {
      assert SlotApart(A[i], d.szIn[i], Some(w), 2 * n);
    }
  }

  /** The guess input's own buffer lies in no buffer the auxiliary reverse pass is given:
      that input is redirected to tmp1 and the residual output is nulled. */
  lemma GuessBufferUntouched(d: Node, size: nat, A: seq<Ptr>, R: seq<Ptr>, w: nat, a: nat)
    requires NodeOk(d) && Layout(size, A, d.szIn, R, d.szOut, w, d.n) && SlotsDisjoint(A, d.szIn)
    requires A[d.iin] == Some(a)
    ensures forall k :: Inside(k, a, d.n) ==>
      !InSlots(k, A[d.iin := Some(w)], d.szIn) && !InSlots(k, R[d.iout := None], d.szOut)
  {
    forall k | Inside(k, a, d.n)
      ensures !InSlots(k, A[d.iin := Some(w)], d.szIn) && !InSlots(k, R[d.iout := None], d.szOut)
    {
      assert SlotApart(A[d.iin], d.szIn[d.iin], Some(w), 2 * d.n);
    }
  }

  /** Likewise the residual output's own buffer. */
  lemma ResidualBufferUntouched(d: Node, size: nat, A: seq<Ptr>, R: seq<Ptr>, w: nat, a: nat)
    requires NodeOk(d) && Layout(size, A, d.szIn, R, d.szOut, w, d.n)
    requires R[d.iout] == Some(a)
    ensures forall k :: Inside(k, a, d.n) ==>
      !InSlots(k, A[d.iin := Some(w)], d.szIn) && !InSlots(k, R[d.iout := None], d.szOut)
  {
    forall k | Inside(k, a, d.n)
      ensures !InSlots(k, A[d.iin := Some(w)], d.szIn) && !InSlots(k, R[d.iout := None], d.szOut)
    {
      assert SlotApart(R[d.iout], d.szOut[d.iout], Some(w), 2 * d.n);
    }
  }

  /** The auxiliary pass, run after the seed was moved, computes `RevAux` of the initial
      memory and writes tmp1, the other inputs' and the other outputs' buffers only. */
  lemma RevAuxAfterSeed(d: Node, m0: seq<Bits>, A: seq<Ptr>, R: seq<Ptr>, w: nat)
    requires NodeOk(d) && Layout(|m0|, A, d.szIn, R, d.szOut, w, d.n) && SlotsDisjoint(A, d.szIn)
    ensures var m1 := RevSeedMemory(d, m0, R, w);
      var m2 := RevAuxMemory(d, m1, A, R, w);
      && Region(m2, w, d.n) == RevAux(d, m0, A, R).0[d.iin]
      && (forall i :: 0 <= i < d.NIn() && i != d.iin && A[i].Some? ==> Region(m2, A[i].value, d.szIn[i]) == RevAux(d, m0, A, R).0[i])
      && (forall i :: 0 <= i < d.NOut() && i != d.iout && R[i].Some? ==> Region(m2, R[i].value, d.szOut[i]) == RevAux(d, m0, A, R).1[i])
      && (A[d.iin].Some? ==> Region(m2, A[d.iin].value, d.n) == Region(m1, A[d.iin].value, d.n))
      && (R[d.iout].Some? ==> Region(m2, R[d.iout].value, d.n) == Region(m1, R[d.iout].value, d.n))
      && (forall k :: 0 <= k < |m0| && !Inside(k, w, d.n) && !InSlots(k, A, d.szIn) && !InSlots(k, R, d.szOut) ==> m2[k] == m1[k])
  {
    var n := d.n;
    var m1 := RevSeedMemory(d, m0, R, w);
    RevSeedEffect(d, m0, A, R, w);
    RevAuxEffect(d, m1, A, R, w);
    var m2 := RevAuxMemory(d, m1, A, R, w);
    var A', R' := A[d.iin := Some(w)], R[d.iout := None];
    AvoidSub(A, d.szIn, w, n, w, n);
    RedirectedSlots(A, d.szIn, d.iin, w, |m0|);
    NulledSlots(R, d.szOut, d.iout, |m0|);
    if A[d.iin].Some? {
      GuessBufferUntouched(d, |m0|, A, R, w, A[d.iin].value);
      RegionAgree(m2, m1, A[d.iin].value, n);
    }
    if R[d.iout].Some? {
      ResidualBufferUntouched(d, |m0|, A, R, w, R[d.iout].value);
      RegionAgree(m2, m1, R[d.iout].value, n);
    }
    forall k | 0 <= k < |m0| && !Inside(k, w, n) && !InSlots(k, A, d.szIn) && !InSlots(k, R, d.szOut)
      ensures m2[k] == m1[k]
    {
      assert !InSlots(k, A', d.szIn);
      assert !InSlots(k, R', d.szOut);
    }
  }

  /** When the transposed solve starts, tmp1 holds the unknown's seed, the true inputs'
      buffers what the auxiliary pass gave them, the guess input's buffer its old
      contents, the residual's buffer zeros and the other outputs' buffers what the
      auxiliary pass left there. */
  lemma RevBeforeSolveEffect(d: Node, m0: seq<Bits>, A: seq<Ptr>, R: seq<Ptr>, w: nat)
    requires NodeOk(d) && Layout(|m0|, A, d.szIn, R, d.szOut, w, d.n) && SlotsDisjoint(A, d.szIn)
    ensures var m2 := RevBeforeSolveMemory(d, m0, A, R, w);
      && Region(m2, w, d.n) == RevResidualSeed(d, m0, A, R)
      && Load(m2, A, d.szIn)[d.iin := None] == RevInputsSeen(d, m0, A, R)
      && (A[d.iin].Some? ==> Region(m2, A[d.iin].value, d.n) == Region(m0, A[d.iin].value, d.n))
      && (R[d.iout].Some? ==> Region(m2, R[d.iout].value, d.n) == Zeros(d.n))
      && (forall i :: 0 <= i < d.NOut() && i != d.iout && R[i].Some? ==>
            Region(m2, R[i].value, d.szOut[i]) == RevAux(d, m0, A, R).1[i])
      && (forall k :: 0 <= k < |m0| && !Inside(k, w, d.n) && !InSlots(k, A, d.szIn) && !InSlots(k, R, d.szOut) ==>
            m2[k] == m0[k])
  {
    var m1 := RevSeedMemory(d, m0, R, w);
    RevSeedEffect(d, m0, A, R, w);
    assert Load(m1, A, d.szIn)[d.iin] == Load(m0, A, d.szIn)[d.iin];
    forall k | 0 <= k < |m0| && R[d.iout].Some? && Inside(k, R[d.iout].value, d.n) ensures InSlots(k, R, d.szOut) {
      assert Inside(k, R[d.iout].value, d.szOut[d.iout]);
    }
    if d.NOut() > 1 {
      RevAuxAfterSeed(d, m0, A, R, w);
      var m2 := RevAuxMemory(d, m1, A, R, w);
      var l2, seen := Load(m2, A, d.szIn)[d.iin := None], RevInputsSeen(d, m0, A, R);
      assert forall j :: 0 <= j < |A| ==> l2[j] == seen[j];
    }
  }

  /** The regions the solve and the final pass leave alone: apart from tmp2 and from every
      true input's buffer. */
  lemma KeptAfterSolve(d: Node, m2: seq<Bits>, A: seq<Ptr>, w: nat, a: nat, len: nat)
    requires NodeOk(d) && SlotsFit(A, d.szIn, |m2|) && w + 2 * d.n <= |m2|
    requires SlotsDisjoint(A, d.szIn) && SlotsAvoid(A, d.szIn, w, 2 * d.n)
    requires a + len <= |m2| && Apart(a, len, w + d.n, d.n)
    requires forall j :: 0 <= j < |A| && j != d.iin ==> SlotApart(A[j], d.szIn[j], Some(a), len)
    ensures Region(RevMainMemory(d, SolvedMemory(d, m2, w, true), A, w), a, len) == Region(m2, a, len)
  {
    var m3 := SolvedMemory(d, m2, w, true);
    var m4 := RevMainMemory(d, m3, A, w);
    RevMainEffect(d, m3, A, w);
    RegionAfterStore(m2, w + d.n, d.pattern.spsolve(Zeros(d.n), Region(m2, w, d.n), true), a, len);
    assert SlotsAvoid(A[d.iin := None], d.szIn, a, len);
    AvoidOutside(A[d.iin := None], d.szIn, a, len);
    RegionAgree(m4, m3, a, len);
  }

  /**
   * What `sp_rev` leaves in memory `m`, starting from `m0`: tmp1 holds the residual's
   * seed (with the auxiliary part), tmp2 its transposed solve; every true input's buffer
   * holds what the final pass gives it; the guess input's buffer keeps its contents;
   * the residual's seed buffer is cleared; the auxiliary outputs' buffers hold what the
   * auxiliary pass left; nothing else changes.
   */
  ghost predicate RevEffect(d: Node, m0: seq<Bits>, m: seq<Bits>, A: seq<Ptr>, R: seq<Ptr>, w: nat)
    requires NodeOk(d) && Layout(|m0|, A, d.szIn, R, d.szOut, w, d.n) && |m| == |m0|
  {
    && Region(m, w, d.n) == RevResidualSeed(d, m0, A, R)
    && Region(m, w + d.n, d.n) == RevMain(d, m0, A, R).1[d.iout]
    && (forall i :: 0 <= i < d.NIn() && i != d.iin && A[i].Some? ==>
          Region(m, A[i].value, d.szIn[i]) == RevMain(d, m0, A, R).0[i])
    && (A[d.iin].Some? ==> Region(m, A[d.iin].value, d.n) == Region(m0, A[d.iin].value, d.n))
    && (R[d.iout].Some? ==> Region(m, R[d.iout].value, d.n) == Zeros(d.n))
    && (forall i :: 0 <= i < d.NOut() && i != d.iout && R[i].Some? ==>
          Region(m, R[i].value, d.szOut[i]) == RevAux(d, m0, A, R).1[i])
    && (forall k :: 0 <= k < |m0| && !Inside(k, w, 2 * d.n) && !InSlots(k, A, d.szIn) && !InSlots(k, R, d.szOut) ==>
          m[k] == m0[k])
  }

  /** What the transposed solve and the final pass write: tmp2 and the true inputs'
      buffers. */
  lemma RevMainWritten(d: Node, m0: seq<Bits>, A: seq<Ptr>, R: seq<Ptr>, w: nat)
    requires NodeOk(d) && Layout(|m0|, A, d.szIn, R, d.szOut, w, d.n) && SlotsDisjoint(A, d.szIn)
    ensures var m := SpRevMemory(d, m0, A, R, w);
      && Region(m, w + d.n, d.n) == RevMain(d, m0, A, R).1[d.iout]
      && (forall i :: 0 <= i < d.NIn() && i != d.iin && A[i].Some? ==>
            Region(m, A[i].value, d.szIn[i]) == RevMain(d, m0, A, R).0[i])
  {
    var n := d.n;
    var m2 := RevBeforeSolveMemory(d, m0, A, R, w);
    RevBeforeSolveEffect(d, m0, A, R, w);
    var m3 := SolvedMemory(d, m2, w, true);
    assert Region(m3, w + n, n) == RevMultiplier(d, m0, A, R);
    AvoidSub(A, d.szIn, w, n, w + n, n);
    LoadUnchanged(m2, m3, A, d.szIn, w + n, n, None, 0);
    RevMainEffect(d, m3, A, w);
    assert d.bits.rev(Load(m3, A, d.szIn)[d.iin := None], Single(d.NOut(), d.iout, Region(m3, w + n, n)))
        == RevMain(d, m0, A, R);
  }

  /** What the transposed solve and the final pass leave alone: tmp1, the guess input's
      buffer, the outputs' buffers and every word outside the caller's buffers. */
  lemma RevMainKept(d: Node, m0: seq<Bits>, A: seq<Ptr>, R: seq<Ptr>, w: nat)
    requires NodeOk(d) && Layout(|m0|, A, d.szIn, R, d.szOut, w, d.n) && SlotsDisjoint(A, d.szIn)
    ensures var m2, m := RevBeforeSolveMemory(d, m0, A, R, w), SpRevMemory(d, m0, A, R, w);
      && Region(m, w, d.n) == Region(m2, w, d.n)
      && (A[d.iin].Some? ==> Region(m, A[d.iin].value, d.n) == Region(m2, A[d.iin].value, d.n))
      && (forall i :: 0 <= i < d.NOut() && R[i].Some? ==>
            Region(m, R[i].value, d.szOut[i]) == Region(m2, R[i].value, d.szOut[i]))
      && (forall k :: 0 <= k < |m0| && !Inside(k, w + d.n, d.n) && !InSlots(k, A, d.szIn) ==> m[k] == m2[k])
  {
    var n := d.n;
    var m2 := RevBeforeSolveMemory(d, m0, A, R, w);
    var m3 := SolvedMemory(d, m2, w, true);
    RevMainEffect(d, m3, A, w);
    KeptAfterSolve(d, m2, A, w, w, n);
    if A[d.iin].Some? {
      assert SlotApart(A[d.iin], d.szIn[d.iin], Some(w), 2 * n);
      KeptAfterSolve(d, m2, A, w, A[d.iin].value, n);
    }
    forall i | 0 <= i < d.NOut() && R[i].Some?
      ensures Region(SpRevMemory(d, m0, A, R, w), R[i].value, d.szOut[i]) == Region(m2, R[i].value, d.szOut[i])
    {
      assert SlotApart(R[i], d.szOut[i], Some(w), 2 * n);
      assert forall j :: 0 <= j < |A| ==> SlotApart(A[j], d.szIn[j], R[i], d.szOut[i]);
      KeptAfterSolve(d, m2, A, w, R[i].value, d.szOut[i]);
    }
    NulledSlots(A, d.szIn, d.iin, |m0|);
  }

  /** Everything `sp_rev` promises about the memory. */
  lemma SpRevMemoryEffect(d: Node, m0: seq<Bits>, A: seq<Ptr>, R: seq<Ptr>, w: nat)
    requires NodeOk(d) && Layout(|m0|, A, d.szIn, R, d.szOut, w, d.n) && SlotsDisjoint(A, d.szIn)
    ensures RevEffect(d, m0, SpRevMemory(d, m0, A, R, w), A, R, w)
  {
    var m2, m := RevBeforeSolveMemory(d, m0, A, R, w), SpRevMemory(d, m0, A, R, w);
    RevBeforeSolveEffect(d, m0, A, R, w);
    RevMainWritten(d, m0, A, R, w);
    RevMainKept(d, m0, A, R, w);
    forall k | 0 <= k < |m0| && !Inside(k, w, 2 * d.n) && !InSlots(k, A, d.szIn) && !InSlots(k, R, d.szOut)
      ensures m[k] == m0[k]
    {
      assert !Inside(k, w + d.n, d.n) && !Inside(k, w, d.n);
      assert m[k] == m2[k];
    }
    forall i | 0 <= i < d.NOut() && i != d.iout && R[i].Some?
      ensures Region(m, R[i].value, d.szOut[i]) == RevAux(d, m0, A, R).1[i]
    {
      assert Region(m, R[i].value, d.szOut[i]) == Region(m2, R[i].value, d.szOut[i]);
    }
  }

  /** The first step of `sp_rev`: the residual's seed is moved into tmp1 and its buffer
      cleared (tmp1 is zeroed when there is no buffer). */
  method RevTakeSeed(d: Node, R: seq<Ptr>, mem: array<Bits>, w: nat)
    requires NodeOk(d) && SlotsFit(R, d.szOut, mem.Length) && w + d.n <= mem.Length
    modifies mem
    ensures mem[..] == RevSeedMemory(d, old(mem[..]), R, w)
  {
    if R[d.iout].Some? {
      var seed := mem[R[d.iout].value..R[d.iout].value + d.n];
      assert seed == Region(mem[..], R[d.iout].value, d.n);
      WriteRegion(mem, w, seed);
      WriteRegion(mem, R[d.iout].value, Zeros(d.n));
    } else {
      WriteRegion(mem, w, Zeros(d.n));
    }
  }

  /** The auxiliary step of `sp_rev`: tmp1 stands for the unknown, the residual's seed
      is left out, and with auxiliary outputs the oracle pushes their seeds back. */
  method RevAuxPass(d: Node, arg: array<Ptr>, res: array<Ptr>, mem: array<Bits>, w: nat)
    requires NodeOk(d) && Separate(arg, res, mem)
    requires arg.Length >= 2 * d.NIn() && res.Length >= 2 * d.NOut()
    requires SlotsFit(arg[..d.NIn()], d.szIn, mem.Length) && SlotsFit(res[..d.NOut()], d.szOut, mem.Length)
    requires w + 2 * d.n <= mem.Length
    modifies arg, res, mem
    ensures arg[..d.NIn()] == old(arg[..d.NIn()]) && arg[2 * d.NIn()..] == old(arg[2 * d.NIn()..])
    ensures res[..d.NOut()] == old(res[..d.NOut()]) && res[2 * d.NOut()..] == old(res[2 * d.NOut()..])
    ensures arg[d.NIn()..2 * d.NIn()] == old(arg[..d.NIn()])[d.iin := Some(w)]
    ensures res[d.NOut()..2 * d.NOut()] == old(res[..d.NOut()])[d.iout := None]
    ensures mem[..] == if d.NOut() > 1 then RevAuxMemory(d, old(mem[..]), arg[..d.NIn()], res[..d.NOut()], w) else old(mem[..])
  {
    var numIn, numOut := d.NIn(), d.NOut();
    var A, R := arg[..numIn], res[..numOut];
    ghost var m, argTail, resTail := mem[..], arg[2 * numIn..], res[2 * numOut..];
    WriteSlots(res, numOut, R[d.iout := None]);
    assert res[..numOut] == R && res[2 * numOut..] == resTail;
    WriteSlots(arg, numIn, A[d.iin := Some(w)]);
    assert arg[..numIn] == A && arg[2 * numIn..] == argTail;
    if numOut > 1 {
      var args, ress := arg[numIn..2 * numIn], res[numOut..2 * numOut];
      assert args == A[d.iin := Some(w)] && ress == R[d.iout := None];
      LoadRedirected(m, A, d.szIn, d.iin, w);
      NulledSlots(R, d.szOut, d.iout, |m|);
      CallRev(d.bits, args, ress, d.szIn, d.szOut, mem);
      assert mem[..] == RevAuxMemory(d, m, A, R, w);
    }
  }

  /** The last step of `sp_rev`: tmp2 becomes the residual's only seed, the guess input is
      nulled, and the oracle pushes the seed back to the true inputs. */
  method RevMainPass(d: Node, arg: array<Ptr>, res: array<Ptr>, mem: array<Bits>, w: nat)
    requires NodeOk(d) && Separate(arg, res, mem)
    requires arg.Length >= 2 * d.NIn() && res.Length >= 2 * d.NOut()
    requires SlotsFit(arg[..d.NIn()], d.szIn, mem.Length) && w + 2 * d.n <= mem.Length
    requires arg[d.NIn()..2 * d.NIn()] == arg[..d.NIn()][d.iin := Some(w)]
    modifies arg, res, mem
    ensures arg[..d.NIn()] == old(arg[..d.NIn()]) && arg[2 * d.NIn()..] == old(arg[2 * d.NIn()..])
    ensures res[..d.NOut()] == old(res[..d.NOut()]) && res[2 * d.NOut()..] == old(res[2 * d.NOut()..])
    ensures arg[d.NIn()..2 * d.NIn()] == old(arg[..d.NIn()])[d.iin := None]
    ensures res[d.NOut()..2 * d.NOut()] == OnlyAt(d.NOut(), d.iout, w + d.n)
    ensures mem[..] == RevMainMemory(d, old(mem[..]), arg[..d.NIn()], w)
  {
    var numIn, numOut := d.NIn(), d.NOut();
    ghost var A, m, R, argTail, resTail := arg[..numIn], mem[..], res[..numOut], arg[2 * numIn..], res[2 * numOut..];
    WriteSlots(res, numOut, OnlyAt(numOut, d.iout, w + d.n));
    assert res[..numOut] == R && res[2 * numOut..] == resTail;
    arg[numIn + d.iin] := None;
    assert arg[..numIn] == A && arg[2 * numIn..] == argTail;
    var args, ress := arg[numIn..2 * numIn], res[numOut..2 * numOut];
    assert args == A[d.iin := None] && ress == OnlyAt(numOut, d.iout, w + d.n);
    LoadNulled(m, A, d.szIn, d.iin);
    OnlyAtSlots(numOut, d.iout, w + d.n, d.szOut, |m|);
    CallRev(d.bits, args, ress, d.szIn, d.szOut, mem);
    assert mem[..] == RevMainMemory(d, m, A, w);
  }

  /** The steps of `sp_rev` before the solve. */
  method RevPrepare(d: Node, arg: array<Ptr>, res: array<Ptr>, mem: array<Bits>, w: nat)
    requires NodeOk(d) && Separate(arg, res, mem) && arg.Length >= 2 * d.NIn() && res.Length >= 2 * d.NOut()
    requires Layout(mem.Length, arg[..d.NIn()], d.szIn, res[..d.NOut()], d.szOut, w, d.n)
    modifies arg, res, mem
    ensures arg[..d.NIn()] == old(arg[..d.NIn()]) && arg[2 * d.NIn()..] == old(arg[2 * d.NIn()..])
    ensures res[..d.NOut()] == old(res[..d.NOut()]) && res[2 * d.NOut()..] == old(res[2 * d.NOut()..])
    ensures arg[d.NIn()..2 * d.NIn()] == old(arg[..d.NIn()])[d.iin := Some(w)]
    ensures mem[..] == RevBeforeSolveMemory(d, old(mem[..]), arg[..d.NIn()], res[..d.NOut()], w)
  {
    ghost var m0, A, R := mem[..], arg[..d.NIn()], res[..d.NOut()];
    // Get & clear seed corresponding to implicitly defined variable
    RevTakeSeed(d, res[..d.NOut()], mem, w);
    // Propagate dependencies from auxiliary outputs to z
    RevAuxPass(d, arg, res, mem, w);
    assert arg[..d.NIn()] == A && res[..d.NOut()] == R;
  }

  /**
   * `sp_rev`: reverse structural propagation, with the same pointer and scratch layout as
   * `sp_fwd`. The residual's seed is moved into tmp1 and its buffer cleared; with
   * auxiliary outputs, their seeds are pushed back with tmp1 standing for the unknown;
   * tmp1 is solved, transposed, into a zeroed tmp2; finally tmp2, as the residual's only
   * seed, is pushed back to the true inputs with the guess input null. The guess input's
   * buffer keeps its contents, and nothing outside the scratch vectors and the caller's
   * buffers changes.
   */
  method SpRev(d: Node, arg: array<Ptr>, res: array<Ptr>, mem: array<Bits>, w: nat)
    requires NodeOk(d) && Separate(arg, res, mem) && arg.Length >= 2 * d.NIn() && res.Length >= 2 * d.NOut()
    requires Layout(mem.Length, arg[..d.NIn()], d.szIn, res[..d.NOut()], d.szOut, w, d.n)
    modifies arg, res, mem
    ensures arg[..d.NIn()] == old(arg[..d.NIn()]) && arg[2 * d.NIn()..] == old(arg[2 * d.NIn()..])
    ensures res[..d.NOut()] == old(res[..d.NOut()]) && res[2 * d.NOut()..] == old(res[2 * d.NOut()..])
    ensures arg[d.NIn()..2 * d.NIn()] == old(arg[..d.NIn()])[d.iin := None]
    ensures res[d.NOut()..2 * d.NOut()] == OnlyAt(d.NOut(), d.iout, w + d.n)
    ensures mem[..] == SpRevMemory(d, old(mem[..]), arg[..d.NIn()], res[..d.NOut()], w)
    ensures SlotsDisjoint(arg[..d.NIn()], d.szIn) ==>
      RevEffect(d, old(mem[..]), mem[..], arg[..d.NIn()], res[..d.NOut()], w)
  {
    ghost var m0, A, R := mem[..], arg[..d.NIn()], res[..d.NOut()];
    RevPrepare(d, arg, res, mem, w);
    // "Solve" in order to get seed
    SolveInto(d, mem, w, true);
    // Propagate dependencies through the function
    RevMainPass(d, arg, res, mem, w);
    assert arg[..d.NIn()] == A && res[..d.NOut()] == R;
    assert mem[..] == SpRevMemory(d, m0, A, R, w);
    if SlotsDisjoint(A, d.szIn) {
      SpRevMemoryEffect(d, m0, A, R, w);
    }
  }
}
