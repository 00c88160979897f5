/**
 * Reference definitions of the rootfinder's symbolic forward and reverse derivative
 * wiring (the implicit function theorem), over an abstract expression type `E`.
 *
 * With z solving F(z, p) = 0 and J = ∂F/∂z at the root, a forward seed dp gives
 * dz = -J⁻¹ (∂F/∂p dp), and an adjoint seed on z gives the multiplier
 * λ = -J⁻ᵀ (seed) fed back through F. The oracle, the Jacobian and the batched solve
 * stay opaque; what is fixed here is which seeds go where.
 */
module ImplicitAD {
  import opened Oracle

  /** `v.resize(n)` of a `std::vector`: the first `n` elements, padded with `pad`. */
  function Resize<T>(s: seq<T>, n: nat, pad: T): (r: seq<T>)
    ensures |r| == n
    ensures forall i :: 0 <= i < n ==> r[i] == (if i < |s| then s[i] else pad)
  {
    if n <= |s| then s[..n] else s + seq(n - |s|, _ => pad)
  }

  /** Every direction of a seed or sensitivity table has `width` entries. */
  predicate Rows<E>(s: seq<seq<E>>, width: nat) {
    forall d :: 0 <= d < |s| ==> |s[d]| == width
  }

  /** `k` copies of `x`: one entry per direction. */
  function Repeat<E>(x: E, k: nat): (r: seq<E>)
    ensures |r| == k && forall d :: 0 <= d < k ==> r[d] == x
  {
    seq(k, _ => x)
  }

  /** Entry `i` of every direction. */
  function Column<E>(s: seq<seq<E>>, i: nat): (c: seq<E>)
    requires forall d :: 0 <= d < |s| ==> i < |s[d]|
    ensures |c| == |s| && forall d :: 0 <= d < |s| ==> c[d] == s[d][i]
  {
    seq(|s|, d requires 0 <= d < |s| => s[d][i])
  }

  /** The table with entry `i` of direction `d` replaced by `c[d]`, for every `d`. */
  function WithColumn<E>(s: seq<seq<E>>, i: nat, c: seq<E>): (r: seq<seq<E>>)
    requires |c| == |s| && forall d :: 0 <= d < |s| ==> i < |s[d]|
    ensures |r| == |s| && forall d :: 0 <= d < |s| ==> r[d] == s[d][i := c[d]]
  {
    seq(|s|, d requires 0 <= d < |s| => s[d][i := c[d]])
  }

  /** `-horzcat(c)`, split back into its columns. */
  function Negated<E>(o: SymOracle<E>, c: seq<E>): (r: seq<E>)
    ensures |r| == |c| && forall d :: 0 <= d < |c| ==> r[d] == o.neg(c[d])
  {
    seq(|c|, d requires 0 <= d < |c| => o.neg(c[d]))
  }

  /** Column-wise sum `a[d] + b[d]`. */
  function Summed<E>(o: SymOracle<E>, a: seq<E>, b: seq<E>): (r: seq<E>)
    requires |a| == |b|
    ensures |r| == |a| && forall d :: 0 <= d < |a| ==> r[d] == o.add(a[d], b[d])
  {
    seq(|a|, d requires 0 <= d < |a| => o.add(a[d], b[d]))
  }

  /** The oracle's arguments during propagation: the unknown is taken at the root `res[iout]`. */
  function AtRoot<E>(arg: seq<E>, res: seq<E>, iin: nat, iout: nat): (r: seq<E>)
    requires iin < |arg| && iout < |res|
    ensures |r| == |arg| && r[iin] == res[iout]
    ensures forall i :: 0 <= i < |arg| && i != iin ==> r[i] == arg[i]
  {
    arg[iin := res[iout]]
  }

  /** The oracle's outputs during propagation: the residual is a structural zero. */
  function ZeroResidual<E>(o: SymOracle<E>, res: seq<E>, iin: nat, iout: nat): (r: seq<E>)
    requires iin < |o.zeroIn| && iout < |res|
    ensures |r| == |res| && r[iout] == o.zeroIn[iin]
    ensures forall i :: 0 <= i < |res| && i != iout ==> r[i] == res[i]
  {
    res[iout := o.zeroIn[iin]]
  }

  /** Preconditions shared by the forward wiring. */
  ghost predicate ForwardArgs<E(!new)>(o: SymOracle<E>, iin: nat, iout: nat, arg: seq<E>, res: seq<E>, fseed: seq<seq<E>>) {
    SymShaped(o, |arg|, |res|) && iin < |arg| && iout < |res| && Rows(fseed, |arg|)
  }

  /** The forward seeds the oracle sees: every guess seed replaced by a structural zero. */
  function OracleFwdSeeds<E(!new)>(o: SymOracle<E>, iin: nat, iout: nat, arg: seq<E>, res: seq<E>, fseed: seq<seq<E>>): (r: seq<seq<E>>)
    requires ForwardArgs(o, iin, iout, arg, res, fseed)
    ensures |r| == |fseed| && Rows(r, |arg|)
  {
    WithColumn(fseed, iin, seq(|fseed|, _ => o.zeroIn[iin]))
  }

  /** First forward pass through the oracle, at the root, with the guess seeds zeroed. */
  function FirstFwdPass<E(!new)>(o: SymOracle<E>, iin: nat, iout: nat, arg: seq<E>, res: seq<E>,
                                  fseed: seq<seq<E>>, fsensIn: seq<seq<E>>): (r: seq<seq<E>>)
    requires ForwardArgs(o, iin, iout, arg, res, fseed)
    ensures |r| == |fseed| && Rows(r, |res|)
  {
    o.fwd(AtRoot(arg, res, iin, iout), ZeroResidual(o, res, iin, iout),
          OracleFwdSeeds(o, iin, iout, arg, res, fseed), Resize(fsensIn, |fseed|, []))
  }

  /** The sensitivity of the root: the columns of J⁻¹ (-dr), J the Jacobian at the root,
      dr the residual sensitivities of the first pass, solved without transposing. */
  function RootFwdSens<E(!new)>(o: SymOracle<E>, iin: nat, iout: nat, arg: seq<E>, res: seq<E>,
                                 fseed: seq<seq<E>>, fsensIn: seq<seq<E>>): (r: seq<E>)
    requires ForwardArgs(o, iin, iout, arg, res, fseed)
    ensures |r| == |fseed|
  {
    var s1 := FirstFwdPass(o, iin, iout, arg, res, fseed, fsensIn);
    o.solve(o.jac(AtRoot(arg, res, iin, iout)), Negated(o, Column(s1, iout)), false)
  }

  /**
   * `Rootfinder::forward`: the forward sensitivities of every output for every direction.
   * No direction gives no result. Otherwise the root's sensitivity is `RootFwdSens`; with
   * auxiliary outputs a second oracle pass, seeded on the unknown with that
   * sensitivity, gives the auxiliary outputs' sensitivities.
   */
  function ForwardSpec<E(!new)>(o: SymOracle<E>, iin: nat, iout: nat, arg: seq<E>, res: seq<E>,
                                 fseed: seq<seq<E>>, fsensIn: seq<seq<E>>): (fsens: seq<seq<E>>)
    requires ForwardArgs(o, iin, iout, arg, res, fseed)
    ensures |fsens| == |fseed| && Rows(fsens, |res|)
  {
    if |fseed| == 0 then []
    else
      var s1 := FirstFwdPass(o, iin, iout, arg, res, fseed, fsensIn);
      var dz := RootFwdSens(o, iin, iout, arg, res, fseed, fsensIn);
      if |res| > 1 then
        var seeds2 := WithColumn(OracleFwdSeeds(o, iin, iout, arg, res, fseed), iin, dz);
        var s2 := o.fwd(AtRoot(arg, res, iin, iout), ZeroResidual(o, res, iin, iout),
                        seeds2, WithColumn(s1, iout, dz));
        WithColumn(s2, iout, dz)
      else WithColumn(s1, iout, dz)
  }

  /** Every direction's root sensitivity is the solved value, whatever the second pass returns. */
  lemma ForwardRootSens<E(!new)>(o: SymOracle<E>, iin: nat, iout: nat, arg: seq<E>, res: seq<E>,
                                  fseed: seq<seq<E>>, fsensIn: seq<seq<E>>, d: nat)
    requires ForwardArgs(o, iin, iout, arg, res, fseed) && d < |fseed|
    ensures ForwardSpec(o, iin, iout, arg, res, fseed, fsensIn)[d][iout]
         == RootFwdSens(o, iin, iout, arg, res, fseed, fsensIn)[d]
  {
  }

  /** With the residual as the only output there is a single oracle pass: each direction's
      result is the root sensitivity alone. */
  lemma ForwardSingleOutput<E(!new)>(o: SymOracle<E>, iin: nat, iout: nat, arg: seq<E>, res: seq<E>,
                                      fseed: seq<seq<E>>, fsensIn: seq<seq<E>>)
    requires ForwardArgs(o, iin, iout, arg, res, fseed) && |res| == 1
    ensures var dz := RootFwdSens(o, iin, iout, arg, res, fseed, fsensIn);
            ForwardSpec(o, iin, iout, arg, res, fseed, fsensIn) == seq(|fseed|, d requires 0 <= d < |fseed| => [dz[d]])
  {
    var dz := RootFwdSens(o, iin, iout, arg, res, fseed, fsensIn);
    var r := ForwardSpec(o, iin, iout, arg, res, fseed, fsensIn);
    forall d | 0 <= d < |fseed| ensures r[d] == [dz[d]] {
      assert |r[d]| == 1 && r[d][0] == dz[d];
    }
  }

  /** With auxiliary outputs, each auxiliary sensitivity comes from the second pass, whose
      seeds are zero on the guess in the first pass and the root sensitivity in the second. */
  lemma ForwardAuxiliary<E(!new)>(o: SymOracle<E>, iin: nat, iout: nat, arg: seq<E>, res: seq<E>,
                                   fseed: seq<seq<E>>, fsensIn: seq<seq<E>>, d: nat, i: nat)
    requires ForwardArgs(o, iin, iout, arg, res, fseed) && |res| > 1
    requires d < |fseed| && i < |res| && i != iout
    ensures var s1 := FirstFwdPass(o, iin, iout, arg, res, fseed, fsensIn);
            var dz := RootFwdSens(o, iin, iout, arg, res, fseed, fsensIn);
            var seeds2 := seq(|fseed|, e requires 0 <= e < |fseed| => fseed[e][iin := dz[e]]);
            ForwardSpec(o, iin, iout, arg, res, fseed, fsensIn)[d][i]
              == o.fwd(AtRoot(arg, res, iin, iout), ZeroResidual(o, res, iin, iout),
                       seeds2, WithColumn(s1, iout, dz))[d][i]
  {
    var dz := RootFwdSens(o, iin, iout, arg, res, fseed, fsensIn);
    var seeds0 := OracleFwdSeeds(o, iin, iout, arg, res, fseed);
    var seeds2 := seq(|fseed|, e requires 0 <= e < |fseed| => fseed[e][iin := dz[e]]);
    forall e | 0 <= e < |fseed| ensures WithColumn(seeds0, iin, dz)[e] == seeds2[e] {
      assert seeds0[e] == fseed[e][iin := o.zeroIn[iin]];
    }
    assert WithColumn(seeds0, iin, dz) == seeds2;
  }

  /** Guess invariance: the forward seeds supplied for the initial guess have no effect on
      any forward sensitivity. */
  lemma {:induction false} ForwardIgnoresGuessSeed<E(!new)>(o: SymOracle<E>, iin: nat, iout: nat, arg: seq<E>, res: seq<E>,
                                                             fseed: seq<seq<E>>, fseed': seq<seq<E>>, fsensIn: seq<seq<E>>)
    requires ForwardArgs(o, iin, iout, arg, res, fseed) && ForwardArgs(o, iin, iout, arg, res, fseed')
    requires |fseed| == |fseed'|
    requires forall d, i :: 0 <= d < |fseed| && 0 <= i < |arg| && i != iin ==> fseed[d][i] == fseed'[d][i]
    ensures ForwardSpec(o, iin, iout, arg, res, fseed, fsensIn) == ForwardSpec(o, iin, iout, arg, res, fseed', fsensIn)
  {
    var z := o.zeroIn[iin];
    forall d | 0 <= d < |fseed|
      ensures OracleFwdSeeds(o, iin, iout, arg, res, fseed)[d] == OracleFwdSeeds(o, iin, iout, arg, res, fseed')[d]
    {
      assert fseed[d][iin := z] == fseed'[d][iin := z];
    }
    assert OracleFwdSeeds(o, iin, iout, arg, res, fseed) == OracleFwdSeeds(o, iin, iout, arg, res, fseed');
  }

  /** Guess invariance: the value of the initial guess has no effect either; the derivative
      is taken at the root. */
  lemma ForwardIgnoresGuessValue<E(!new)>(o: SymOracle<E>, iin: nat, iout: nat, arg: seq<E>, res: seq<E>,
                                           fseed: seq<seq<E>>, fsensIn: seq<seq<E>>, guess: E)
    requires ForwardArgs(o, iin, iout, arg, res, fseed)
    ensures ForwardSpec(o, iin, iout, arg[iin := guess], res, fseed, fsensIn) == ForwardSpec(o, iin, iout, arg, res, fseed, fsensIn)
  {
    assert AtRoot(arg[iin := guess], res, iin, iout) == AtRoot(arg, res, iin, iout);
  }

  /** Preconditions shared by the reverse wiring. */
  ghost predicate ReverseArgs<E(!new)>(o: SymOracle<E>, iin: nat, iout: nat, arg: seq<E>, res: seq<E>, aseed: seq<seq<E>>) {
    SymShaped(o, |arg|, |res|) && iin < |arg| && iout < |res| && Rows(aseed, |res|)
  }

  /** The adjoint seeds of the first (auxiliary) pass: the residual's seed replaced by zero. */
  function AuxAdjSeeds<E(!new)>(o: SymOracle<E>, iin: nat, iout: nat, arg: seq<E>, res: seq<E>, aseed: seq<seq<E>>): (r: seq<seq<E>>)
    requires ReverseArgs(o, iin, iout, arg, res, aseed)
    ensures |r| == |aseed| && Rows(r, |res|)
  {
    WithColumn(aseed, iout, seq(|aseed|, _ => o.zeroIn[iin]))
  }

  /** The auxiliary pass: auxiliary outputs' seeds propagated back through the oracle at the
      root, into a fresh sensitivity table. */
  function AuxPass<E(!new)>(o: SymOracle<E>, iin: nat, iout: nat, arg: seq<E>, res: seq<E>, aseed: seq<seq<E>>): (r: seq<seq<E>>)
    requires ReverseArgs(o, iin, iout, arg, res, aseed)
    ensures |r| == |aseed| && Rows(r, |arg|)
  {
    o.rev(AtRoot(arg, res, iin, iout), ZeroResidual(o, res, iin, iout),
          AuxAdjSeeds(o, iin, iout, arg, res, aseed), [])
  }

  /** The right-hand sides of the adjoint solve: the residual's seed, plus the unknown's
      contribution from the auxiliary pass when there are auxiliary outputs. */
  function AdjRhs<E(!new)>(o: SymOracle<E>, iin: nat, iout: nat, arg: seq<E>, res: seq<E>, aseed: seq<seq<E>>): (r: seq<E>)
    requires ReverseArgs(o, iin, iout, arg, res, aseed)
    ensures |r| == |aseed|
  {
    if |res| > 1 then Summed(o, Column(AuxPass(o, iin, iout, arg, res, aseed), iin), Column(aseed, iout))
    else Column(aseed, iout)
  }

  /** The adjoint multipliers: the columns of J⁻ᵀ (-rhs), solved transposed. */
  function Multipliers<E(!new)>(o: SymOracle<E>, iin: nat, iout: nat, arg: seq<E>, res: seq<E>, aseed: seq<seq<E>>): (r: seq<E>)
    requires ReverseArgs(o, iin, iout, arg, res, aseed)
    ensures |r| == |aseed|
  {
    o.solve(o.jac(AtRoot(arg, res, iin, iout)), Negated(o, AdjRhs(o, iin, iout, arg, res, aseed)), true)
  }

  /** The seeds of the main pass: the multiplier on the residual, zero on every other output. */
  function MainAdjSeeds<E(!new)>(o: SymOracle<E>, iin: nat, iout: nat, arg: seq<E>, res: seq<E>, aseed: seq<seq<E>>): (r: seq<seq<E>>)
    requires ReverseArgs(o, iin, iout, arg, res, aseed)
    ensures |r| == |aseed| && Rows(r, |res|)
    ensures forall d, i :: 0 <= d < |aseed| && 0 <= i < |res| ==>
      r[d][i] == (if i == iout then Multipliers(o, iin, iout, arg, res, aseed)[d] else o.zeroOut[i])
  {
    ResidualSeeds(o, Multipliers(o, iin, iout, arg, res, aseed), iout, |res|)
  }

  /** One direction per entry of `lam`: `lam`'s entry on output `iout`, a structural zero on
      every other of the `numOut` outputs. */
  function ResidualSeeds<E>(o: SymOracle<E>, lam: seq<E>, iout: nat, numOut: nat): (r: seq<seq<E>>)
    requires numOut <= |o.zeroOut|
    ensures |r| == |lam| && Rows(r, numOut)
    ensures forall d, i :: 0 <= d < |lam| && 0 <= i < numOut ==>
      r[d][i] == (if i == iout then lam[d] else o.zeroOut[i])
  {
    seq(|lam|, d requires 0 <= d < |lam| =>
      seq(numOut, i requires 0 <= i < numOut => if i == iout then lam[d] else o.zeroOut[i]))
  }

  /** The caller's sensitivity table after `asens.resize(nadj)` and `asens[d].resize(n_in)`. */
  function Prior<E>(o: SymOracle<E>, asensIn: seq<seq<E>>, nadj: nat, nIn: nat): (r: seq<seq<E>>)
    ensures |r| == nadj && Rows(r, nIn)
  {
    var a := Resize(asensIn, nadj, []);
    seq(nadj, d requires 0 <= d < nadj => Resize(a[d], nIn, o.empty))
  }

  /** The guess's sensitivity that the caller had: its prior entry, or a structural zero
      if that entry is empty. */
  function KeptGuessSens<E(!new)>(o: SymOracle<E>, iin: nat, nIn: nat, asensIn: seq<seq<E>>, nadj: nat): (r: seq<E>)
    requires iin < nIn && iin < |o.zeroIn|
    ensures |r| == nadj
    ensures forall d :: 0 <= d < nadj ==>
      var p := if d < |asensIn| && iin < |asensIn[d]| then asensIn[d][iin] else o.empty;
      r[d] == (if o.isEmpty(p) then o.zeroIn[iin] else p)
  {
    var prior := Prior(o, asensIn, nadj, nIn);
    seq(nadj, d requires 0 <= d < nadj => if o.isEmpty(prior[d][iin]) then o.zeroIn[iin] else prior[d][iin])
  }

  /** The main pass: the multipliers propagated back through the oracle at the root, into
      the caller's (resized) sensitivity table. */
  function MainPass<E(!new)>(o: SymOracle<E>, iin: nat, iout: nat, arg: seq<E>, res: seq<E>,
                              aseed: seq<seq<E>>, asensIn: seq<seq<E>>): (r: seq<seq<E>>)
    requires ReverseArgs(o, iin, iout, arg, res, aseed)
    ensures |r| == |aseed| && Rows(r, |arg|)
  {
    o.rev(AtRoot(arg, res, iin, iout), ZeroResidual(o, res, iin, iout),
          MainAdjSeeds(o, iin, iout, arg, res, aseed), Prior(o, asensIn, |aseed|, |arg|))
  }

  /** `a[d][i] += aux[d][i]` for every direction and every input but the guess. */
  function WithAux<E>(o: SymOracle<E>, a: seq<seq<E>>, aux: seq<seq<E>>, iin: nat): (r: seq<seq<E>>)
    requires |aux| == |a| && forall d :: 0 <= d < |a| ==> |aux[d]| == |a[d]|
    ensures |r| == |a| && forall d :: 0 <= d < |a| ==> |r[d]| == |a[d]|
    ensures forall d, i :: 0 <= d < |a| && 0 <= i < |a[d]| ==>
      r[d][i] == if i != iin then o.add(a[d][i], aux[d][i]) else a[d][i]
  {
    seq(|a|, d requires 0 <= d < |a| =>
      seq(|a[d]|, i requires 0 <= i < |a[d]| => if i != iin then o.add(a[d][i], aux[d][i]) else a[d][i]))
  }

  /**
   * `Rootfinder::reverse`: the adjoint sensitivities of every input for every direction.
   * No direction gives no result. Otherwise: the main pass's sensitivities, with the
   * guess's entry restored to what the caller had, and with the auxiliary pass's
   * contribution added to every other input when there are auxiliary outputs.
   */
  function ReverseSpec<E(!new)>(o: SymOracle<E>, iin: nat, iout: nat, arg: seq<E>, res: seq<E>,
                                 aseed: seq<seq<E>>, asensIn: seq<seq<E>>): (asens: seq<seq<E>>)
    requires ReverseArgs(o, iin, iout, arg, res, aseed)
    ensures |asens| == |aseed| && Rows(asens, |arg|)
  {
    if |aseed| == 0 then []
    else
      var a1 := MainPass(o, iin, iout, arg, res, aseed, asensIn);
      var a2 := WithColumn(a1, iin, KeptGuessSens(o, iin, |arg|, asensIn, |aseed|));
      if |res| > 1 then WithAux(o, a2, AuxPass(o, iin, iout, arg, res, aseed), iin)
      else a2
  }

  /** The guess's entry of every direction is what the caller had (a structural zero when
      that was empty): no sensitivity flows to the initial guess. */
  lemma ReverseGuessSens<E(!new)>(o: SymOracle<E>, iin: nat, iout: nat, arg: seq<E>, res: seq<E>,
                                   aseed: seq<seq<E>>, asensIn: seq<seq<E>>, d: nat)
    requires ReverseArgs(o, iin, iout, arg, res, aseed) && d < |aseed|
    ensures var p := if d < |asensIn| && iin < |asensIn[d]| then asensIn[d][iin] else o.empty;
            ReverseSpec(o, iin, iout, arg, res, aseed, asensIn)[d][iin] == (if o.isEmpty(p) then o.zeroIn[iin] else p)
  {
    var kept := KeptGuessSens(o, iin, |arg|, asensIn, |aseed|);
    assert ReverseSpec(o, iin, iout, arg, res, aseed, asensIn)[d][iin] == kept[d];
  }

  /** With no prior sensitivities, as a derivative function starts, the guess's entry is
      the structural zero in every direction. */
  lemma ReverseGuessSensZero<E(!new)>(o: SymOracle<E>, iin: nat, iout: nat, arg: seq<E>, res: seq<E>,
                                       aseed: seq<seq<E>>)
    requires ReverseArgs(o, iin, iout, arg, res, aseed)
    ensures Column(ReverseSpec(o, iin, iout, arg, res, aseed, []), iin) == Repeat(o.zeroIn[iin], |aseed|)
  {
    var c := Column(ReverseSpec(o, iin, iout, arg, res, aseed, []), iin);
    forall d | 0 <= d < |aseed| ensures c[d] == o.zeroIn[iin] {
      ReverseGuessSens(o, iin, iout, arg, res, aseed, [], d);
    }
  }

  /** Every input other than the guess receives the main pass's sensitivity, plus the
      auxiliary pass's contribution exactly when there are auxiliary outputs. */
  lemma ReverseTrueInputs<E(!new)>(o: SymOracle<E>, iin: nat, iout: nat, arg: seq<E>, res: seq<E>,
                                    aseed: seq<seq<E>>, asensIn: seq<seq<E>>, d: nat, i: nat)
    requires ReverseArgs(o, iin, iout, arg, res, aseed)
    requires d < |aseed| && i < |arg| && i != iin
    ensures var main := MainPass(o, iin, iout, arg, res, aseed, asensIn)[d][i];
            ReverseSpec(o, iin, iout, arg, res, aseed, asensIn)[d][i]
              == if |res| > 1 then o.add(main, AuxPass(o, iin, iout, arg, res, aseed)[d][i]) else main
  {
  }

  /** The guess's value has no effect on any adjoint sensitivity: the derivative is taken
      at the root. */
  lemma ReverseIgnoresGuessValue<E(!new)>(o: SymOracle<E>, iin: nat, iout: nat, arg: seq<E>, res: seq<E>,
                                           aseed: seq<seq<E>>, asensIn: seq<seq<E>>, guess: E)
    requires ReverseArgs(o, iin, iout, arg, res, aseed)
    ensures ReverseSpec(o, iin, iout, arg[iin := guess], res, aseed, asensIn) == ReverseSpec(o, iin, iout, arg, res, aseed, asensIn)
  {
    assert AtRoot(arg[iin := guess], res, iin, iout) == AtRoot(arg, res, iin, iout);
  }

  /** The residual's own adjoint seed never reaches the auxiliary pass: two seed tables that
      differ only on the residual give the same auxiliary contributions. */
  lemma {:induction false} AuxPassIgnoresResidualSeed<E(!new)>(o: SymOracle<E>, iin: nat, iout: nat, arg: seq<E>, res: seq<E>,
                                                                aseed: seq<seq<E>>, aseed': seq<seq<E>>)
    requires ReverseArgs(o, iin, iout, arg, res, aseed) && ReverseArgs(o, iin, iout, arg, res, aseed')
    requires |aseed| == |aseed'|
    requires forall d, i :: 0 <= d < |aseed| && 0 <= i < |res| && i != iout ==> aseed[d][i] == aseed'[d][i]
    ensures AuxPass(o, iin, iout, arg, res, aseed) == AuxPass(o, iin, iout, arg, res, aseed')
  {
    var z := o.zeroIn[iin];
    forall d | 0 <= d < |aseed|
      ensures AuxAdjSeeds(o, iin, iout, arg, res, aseed)[d] == AuxAdjSeeds(o, iin, iout, arg, res, aseed')[d]
    {
      assert aseed[d][iout := z] == aseed'[d][iout := z];
    }
    assert AuxAdjSeeds(o, iin, iout, arg, res, aseed) == AuxAdjSeeds(o, iin, iout, arg, res, aseed');
  }
}
