/** Parameter validation of the SIESTA calculator (`BaseSiesta.set`,
    ase/calculators/siesta/base_siesta.py lines 206-271) and the defaults it
    fills in (`SiestaParameters`, lines 27-47). */
module Parameters {
  import opened Wrappers
  import opened Species

  /** What Python may hold for `mesh_cutoff` or `energy_shift`: a number
      (int or float) or some other object. */
  datatype Scalar = Number(value: real) | NotANumber

  /** `fdf_arguments`: None, a dictionary (keywords to values, the values
      kept as opaque text), or an object that is not a dictionary. */
  datatype FdfArguments = NoFdfArguments | FdfDict(entries: map<string, string>) | NotADict

  /** The keyword set of `SiestaParameters`. `X` is the type of `xc`: a name
      as the caller gives it, or the (functional, authors) pair `set` stores
      in its place (line 253). The plumbing keywords `atoms`, `n_nodes`,
      `restart`, `ignore_bad_restart_file` and `siesta_executable` are not
      part of this model. */
  datatype Settings<X> = Settings(
    fileLabel: string,
    meshCutoff: Scalar,
    energyShift: Scalar,
    kpts: seq<int>,
    xc: X,
    basisSet: Basis,
    spin: Option<string>,
    species: seq<Specie>,
    pseudoQualifier: Option<string>,
    pseudoPath: Option<string>,
    fdfArguments: FdfArguments)

  /** The keyword arguments of one `set(**kwargs)` call: `None` for a
      keyword the caller left out. */
  datatype Kwargs = Kwargs(
    fileLabel: Option<string>,
    meshCutoff: Option<Scalar>,
    energyShift: Option<Scalar>,
    kpts: Option<seq<int>>,
    xc: Option<string>,
    basisSet: Option<Basis>,
    spin: Option<Option<string>>,
    species: Option<seq<Specie>>,
    pseudoQualifier: Option<Option<string>>,
    pseudoPath: Option<Option<string>>,
    fdfArguments: Option<FdfArguments>)

  /** The energy units of `ase.units` (not part of this model): the Rydberg
      and the electronvolt. */
  datatype Units = Units(ry: real, ev: real)

  /** The errors `set` raises, in the order it checks for them. */
  datatype SetError =
    | NotPositive(arg: string)           // ValueError, lines 219-222
    | BasisNotAllowed                    // Exception, lines 227-229
    | SpinNotAllowed                     // Exception, lines 233-235
    | XcWithoutAuthors                   // IndexError of `[0]`, line 241
    | UnrecognizedXc                     // ValueError, lines 251-252
    | FdfArgumentsNotADict               // TypeError, lines 259-260
    | FdfKeywordsNotAllowed(offending: set<string>)  // ValueError, lines 265-269

  /** `allowed_xc`: functional names with their author lists, in the
      dictionary's iteration order. */
  type XcTable = seq<(string, seq<string>)>

  const AllowedBasisNames: seq<string> := ["SZ", "SZP", "DZ", "DZP"]
  const AllowedSpins: seq<string> := ["UNPOLARIZED", "COLLINEAR", "FULL"]

  /** The base class's `allowed_xc` (line 55). */
  const BaseAllowedXc: XcTable := []

  /** `200 * Ry` (line 30). */
  function DefaultMeshCutoff(units: Units): real
  {
    200.0 * units.ry
  }

  /** `100 * meV` (line 31), with `meV = 0.001 * eV` (line 19). */
  function DefaultEnergyShift(units: Units): real
  {
    100.0 * (0.001 * units.ev)
  }

  /** `SiestaParameters()` with no keywords: the constructor defaults of
      lines 29-44. */
  function DefaultSettings(units: Units): Settings<string>
  {
    Settings("siesta", Number(DefaultMeshCutoff(units)), Number(DefaultEnergyShift(units)), [1, 1, 1],
             "LDA", BasisName("DZP"), Some("COLLINEAR"), [], None, None, NoFdfArguments)
  }

  /** A `set` call that names no keyword. */
  const NoKwargs: Kwargs := Kwargs(None, None, None, None, None, None, None, None, None, None, None)

  /** Every keyword the caller gave keeps its value. */
  predicate KeepsGiven(kw: Kwargs, s: Settings<string>)
  {
    && (kw.fileLabel.Some? ==> s.fileLabel == kw.fileLabel.value)
    && (kw.meshCutoff.Some? ==> s.meshCutoff == kw.meshCutoff.value)
    && (kw.energyShift.Some? ==> s.energyShift == kw.energyShift.value)
    && (kw.kpts.Some? ==> s.kpts == kw.kpts.value)
    && (kw.xc.Some? ==> s.xc == kw.xc.value)
    && (kw.basisSet.Some? ==> s.basisSet == kw.basisSet.value)
    && (kw.spin.Some? ==> s.spin == kw.spin.value)
    && (kw.species.Some? ==> s.species == kw.species.value)
    && (kw.pseudoQualifier.Some? ==> s.pseudoQualifier == kw.pseudoQualifier.value)
    && (kw.pseudoPath.Some? ==> s.pseudoPath == kw.pseudoPath.value)
    && (kw.fdfArguments.Some? ==> s.fdfArguments == kw.fdfArguments.value)
  }

  /** Every keyword the caller left out takes its value from `d`. */
  predicate TakesOmitted(kw: Kwargs, s: Settings<string>, d: Settings<string>)
  {
    && (kw.fileLabel.None? ==> s.fileLabel == d.fileLabel)
    && (kw.meshCutoff.None? ==> s.meshCutoff == d.meshCutoff)
    && (kw.energyShift.None? ==> s.energyShift == d.energyShift)
    && (kw.kpts.None? ==> s.kpts == d.kpts)
    && (kw.xc.None? ==> s.xc == d.xc)
    && (kw.basisSet.None? ==> s.basisSet == d.basisSet)
    && (kw.spin.None? ==> s.spin == d.spin)
    && (kw.species.None? ==> s.species == d.species)
    && (kw.pseudoQualifier.None? ==> s.pseudoQualifier == d.pseudoQualifier)
    && (kw.pseudoPath.None? ==> s.pseudoPath == d.pseudoPath)
    && (kw.fdfArguments.None? ==> s.fdfArguments == d.fdfArguments)
  }

  /** `SiestaParameters(**kwargs)` (line 214): every omitted keyword takes
      its constructor default (lines 29-44), not its current value. */
  function WithDefaults(kw: Kwargs, units: Units): (s: Settings<string>)
    ensures KeepsGiven(kw, s)
    ensures TakesOmitted(kw, s, DefaultSettings(units))
    ensures kw == NoKwargs ==> s == DefaultSettings(units)
    ensures kw.meshCutoff.None? ==> s.meshCutoff == Number(200.0 * units.ry)
    ensures kw.spin.None? ==> s.spin == Some("COLLINEAR")
  {
    var d := DefaultSettings(units);
    Settings(
      kw.fileLabel.GetOr(d.fileLabel), kw.meshCutoff.GetOr(d.meshCutoff), kw.energyShift.GetOr(d.energyShift),
      kw.kpts.GetOr(d.kpts), kw.xc.GetOr(d.xc), kw.basisSet.GetOr(d.basisSet), kw.spin.GetOr(d.spin),
      kw.species.GetOr(d.species), kw.pseudoQualifier.GetOr(d.pseudoQualifier),
      kw.pseudoPath.GetOr(d.pseudoPath), kw.fdfArguments.GetOr(d.fdfArguments))
  }

  // ---------------------------------------------------------------------
  // The individual checks
  // ---------------------------------------------------------------------

  /** `isinstance(value, (float, int)) and value > 0`. */
  predicate IsPositive(x: Scalar)
  {
    x.Number? && x.value > 0.0
  }

  /** `isinstance(basis_set, PAOBasisBlock) or basis_set in allowed_basis_names`. */
  predicate BasisAllowed(b: Basis)
  {
    b.PaoBasisBlock? || b.name in AllowedBasisNames
  }

  /** `spin is None or spin in allowed_spins`. */
  predicate SpinAllowed(spin: Option<string>)
  {
    spin.None? || spin.value in AllowedSpins
  }

  /** The position of the first entry whose functional name is `xc`
      (`xc in self.allowed_xc`, line 239). */
  function FindFunctional(table: XcTable, xc: string): (r: Option<nat>)
    ensures r.Some? ==> r.value < |table| && table[r.value].0 == xc
    ensures r.Some? ==> forall i :: 0 <= i < r.value ==> table[i].0 != xc
    ensures r.None? ==> forall i :: 0 <= i < |table| ==> table[i].0 != xc
  {
    if |table| == 0 then None
    else if table[0].0 == xc then Some(0)
    else
      var r := FindFunctional(table[1..], xc);
      if r.Some? then Some(r.value + 1) else None
  }

  /** The position of the first entry, in iteration order, whose author
      list contains `xc` (the loop with `break` of lines 244-249). */
  function FindAuthor(table: XcTable, xc: string): (r: Option<nat>)
    ensures r.Some? ==> r.value < |table| && xc in table[r.value].1
    ensures r.Some? ==> forall i :: 0 <= i < r.value ==> xc !in table[i].1
    ensures r.None? ==> forall i :: 0 <= i < |table| ==> xc !in table[i].1
  {
    if |table| == 0 then None
    else if xc in table[0].1 then Some(0)
    else
      var r := FindAuthor(table[1..], xc);
      if r.Some? then Some(r.value + 1) else None
  }

  /** Lines 238-253: `xc` names a functional (its first author is taken),
      or else an author (the first functional listing it is taken), or it is
      rejected. */
  function ResolveXc(table: XcTable, xc: string): (r: Result<(string, string), SetError>)
    ensures forall i :: 0 <= i < |table| && table[i].0 == xc && |table[i].1| > 0
                       && (forall h :: 0 <= h < i ==> table[h].0 != xc)
                       ==> r == Success((xc, table[i].1[0]))
    ensures forall i :: 0 <= i < |table| && table[i].0 == xc && |table[i].1| == 0
                       && (forall h :: 0 <= h < i ==> table[h].0 != xc)
                       ==> r == Failure(XcWithoutAuthors)
    ensures (forall i :: 0 <= i < |table| ==> table[i].0 != xc) ==>
              forall j :: 0 <= j < |table| && xc in table[j].1
                         && (forall h :: 0 <= h < j ==> xc !in table[h].1)
                         ==> r == Success((table[j].0, xc))
    ensures (forall i :: 0 <= i < |table| ==> table[i].0 != xc && xc !in table[i].1)
              ==> r == Failure(UnrecognizedXc)
  {
    var f := FindFunctional(table, xc);
    if f.Some? then
      var authors := table[f.value].1;
      if |authors| > 0 then Success((xc, authors[0])) else Failure(XcWithoutAuthors)
    else
      var a := FindAuthor(table, xc);
      if a.Some? then Success((table[a.value].0, xc)) else Failure(UnrecognizedXc)
  }

  /** Lines 256-269: no dictionary, or a dictionary whose keywords all lie in
      `allowed_fdf_keywords`. */
  function CheckFdfArguments(args: FdfArguments, allowed: set<string>): (r: Outcome)
    ensures r == Pass <==> args.NoFdfArguments? || (args.FdfDict? && args.entries.Keys <= allowed)
    ensures r.Fail? && args.FdfDict? ==>
              r.error == FdfKeywordsNotAllowed(args.entries.Keys - allowed) && r.error.offending != {}
    ensures args.NotADict? ==> r == Fail(FdfArgumentsNotADict)
  {
    match args
    case NoFdfArguments => Pass
    case NotADict => Fail(FdfArgumentsNotADict)
    case FdfDict(entries) =>
      if entries.Keys <= allowed then Pass
      else
        DifferenceNonEmpty(entries.Keys, allowed);
        Fail(FdfKeywordsNotAllowed(entries.Keys - allowed))
  }

  /** The result of a check that raises or passes. */
  datatype Outcome = Pass | Fail(error: SetError)

  lemma DifferenceNonEmpty<T>(a: set<T>, b: set<T>)
    requires !(a <= b)
    ensures a - b != {}
  {
    var k :| k in a && k !in b;
    assert k in a - b;
  }

  /** The settings with `xc` replaced by its resolved pair (line 253). */
  function WithXc(s: Settings<string>, pair: (string, string)): Settings<(string, string)>
  {
    Settings(s.fileLabel, s.meshCutoff, s.energyShift, s.kpts, pair, s.basisSet, s.spin,
             s.species, s.pseudoQualifier, s.pseudoPath, s.fdfArguments)
  }

  /** The checks of lines 217-269, in their order: the first failing one
      decides the error. */
  function Validate(s: Settings<string>, table: XcTable, allowedFdf: set<string>)
    : (r: Result<Settings<(string, string)>, SetError>)
    ensures r.Success? <==>
      && IsPositive(s.meshCutoff) && IsPositive(s.energyShift)
      && BasisAllowed(s.basisSet) && SpinAllowed(s.spin)
      && ResolveXc(table, s.xc).Success?
      && CheckFdfArguments(s.fdfArguments, allowedFdf) == Pass
    ensures !IsPositive(s.meshCutoff) ==> r == Failure(NotPositive("mesh_cutoff"))
    ensures IsPositive(s.meshCutoff) && !IsPositive(s.energyShift) ==> r == Failure(NotPositive("energy_shift"))
    ensures IsPositive(s.meshCutoff) && IsPositive(s.energyShift) && !BasisAllowed(s.basisSet)
            ==> r == Failure(BasisNotAllowed)
    ensures (IsPositive(s.meshCutoff) && IsPositive(s.energyShift) && BasisAllowed(s.basisSet)
             && !SpinAllowed(s.spin)) ==> r == Failure(SpinNotAllowed)
    ensures (IsPositive(s.meshCutoff) && IsPositive(s.energyShift) && BasisAllowed(s.basisSet)
             && SpinAllowed(s.spin) && ResolveXc(table, s.xc).Failure?)
            ==> r == Failure(ResolveXc(table, s.xc).error)
    ensures (IsPositive(s.meshCutoff) && IsPositive(s.energyShift) && BasisAllowed(s.basisSet)
             && SpinAllowed(s.spin) && ResolveXc(table, s.xc).Success?
             && CheckFdfArguments(s.fdfArguments, allowedFdf).Fail?)
            ==> r == Failure(CheckFdfArguments(s.fdfArguments, allowedFdf).error)
    ensures r.Success? ==> r.value == WithXc(s, ResolveXc(table, s.xc).value)
  {
    if !IsPositive(s.meshCutoff) then Failure(NotPositive("mesh_cutoff"))
    else if !IsPositive(s.energyShift) then Failure(NotPositive("energy_shift"))
    else if !BasisAllowed(s.basisSet) then Failure(BasisNotAllowed)
    else if !SpinAllowed(s.spin) then Failure(SpinNotAllowed)
    else
      var xc := ResolveXc(table, s.xc);
      if xc.Failure? then Failure(xc.error)
      else
        var fdf := CheckFdfArguments(s.fdfArguments, allowedFdf);
        if fdf.Fail? then Failure(fdf.error)
        else Success(WithXc(s, xc.value))
  }

  // ---------------------------------------------------------------------
  // Properties
  // ---------------------------------------------------------------------

  /** A resolved pair is always an entry of the table: the functional is
      one of its keys and the authors are in that key's author list. */
  lemma ResolvedXcIsInTable(table: XcTable, xc: string)
    requires ResolveXc(table, xc).Success?
    ensures var (functional, authors) := ResolveXc(table, xc).value;
      exists i :: 0 <= i < |table| && table[i].0 == functional && authors in table[i].1
  {
    var f := FindFunctional(table, xc);
    if f.Some? {
      var i := f.value;
      assert table[i].1[0] in table[i].1;
    } else {
      var j := FindAuthor(table, xc).value;
      assert table[j].0 == ResolveXc(table, xc).value.0;
    }
  }

  /** With the base class's empty table every `set` call fails, whatever the
      keywords: `xc` can never be resolved. */
  lemma BaseClassSetAlwaysFails(kw: Kwargs, units: Units, allowedFdf: set<string>)
    ensures Validate(WithDefaults(kw, units), BaseAllowedXc, allowedFdf).Failure?
  {
    assert ResolveXc(BaseAllowedXc, WithDefaults(kw, units).xc) == Failure(UnrecognizedXc);
  }

  /** Non-positive or non-numeric energies are rejected (property of lines 217-222). */
  lemma NonPositiveEnergyRejected(s: Settings<string>, table: XcTable, allowedFdf: set<string>)
    requires !IsPositive(s.meshCutoff) || !IsPositive(s.energyShift)
    ensures Validate(s, table, allowedFdf).Failure?
    ensures Validate(s, table, allowedFdf).error.NotPositive?
  {
  }

  /** With positive units, the defaults pass every check once the table
      holds "LDA" with at least one author. */
  lemma DefaultsValidate(units: Units, table: XcTable, allowedFdf: set<string>, i: nat)
    requires units.ry > 0.0 && units.ev > 0.0
    requires i < |table| && table[i].0 == "LDA" && |table[i].1| > 0
    requires forall h :: 0 <= h < i ==> table[h].0 != "LDA"
    ensures Validate(WithDefaults(NoKwargs, units), table, allowedFdf)
        == Success(WithXc(DefaultSettings(units), ("LDA", table[i].1[0])))
  {
    var s := WithDefaults(NoKwargs, units);
    assert "DZP" in AllowedBasisNames;
    assert "COLLINEAR" in AllowedSpins;
    assert ResolveXc(table, s.xc) == Success(("LDA", table[i].1[0]));
  }

  /** The state `set` updates: the calculator's parameters. The result
      bookkeeping of the base calculator is not part of this model. */
  class Calculator {
    var parameters: Settings<(string, string)>
    const allowedXc: XcTable
    const allowedFdfKeywords: set<string>
    const units: Units

    constructor (p: Settings<(string, string)>, table: XcTable, keywords: set<string>, u: Units)
      ensures parameters == p && allowedXc == table && allowedFdfKeywords == keywords && units == u
    {
      parameters := p;
      allowedXc := table;
      allowedFdfKeywords := keywords;
      units := u;
    }

    /** `set(**kwargs)`: on success every keyword is replaced (one left out
        reverts to its default); on failure nothing changes. */
    method Set(kw: Kwargs) returns (r: Option<SetError>)
      modifies this
      ensures var v := Validate(WithDefaults(kw, units), allowedXc, allowedFdfKeywords);
        && (r.None? <==> v.Success?)
        && (v.Success? ==> parameters == v.value)
        && (v.Failure? ==> r == Some(v.error) && parameters == old(parameters))
    {
      var v := Validate(WithDefaults(kw, units), allowedXc, allowedFdfKeywords);
      if v.Failure? {
        return Some(v.error);
      }
      parameters := v.value;
      r := None;
    }
  }
}
