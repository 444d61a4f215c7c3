/** The small conditional directives of the fdf input: the reuse of the
    saved density matrix and the density output request
    (`BaseSiesta.write_input`, ase/calculators/siesta/base_siesta.py lines
    320-352), the spin directives (`_write_species`, lines 503-509), the
    exchange-correlation directives (lines 511-515) and the initial spin
    block (`_write_structure`, lines 417-430). */
module Directives {
  import opened Wrappers

  /** An fdf directive with a boolean or a text value, as `format_fdf`
      receives it (its rendering is not part of this model). */
  datatype Value = Flag(on: bool) | Text(text: string)
  datatype Directive = Directive(key: string, value: Value)

  // ---------------------------------------------------------------------
  // Reusing the saved density matrix (lines 337-341)
  // ---------------------------------------------------------------------

  /** The changes that make the saved density matrix unusable. */
  const DensityInvalidating: set<string> := {"numbers", "initial_magmoms", "initial_charges"}

  /** `DM.UseSaveDM` is written when nothing is known to have changed, or
      when the changes spare the atomic numbers, the initial magnetic
      moments and the initial charges. */
  function UseSavedDensity(systemChanges: Option<set<string>>): (reuse: bool)
    ensures systemChanges.None? ==> reuse
    ensures systemChanges.Some? ==> (reuse <==> systemChanges.value !! DensityInvalidating)
  {
    systemChanges.None?
    || ("numbers" !in systemChanges.value
        && "initial_magmoms" !in systemChanges.value
        && "initial_charges" !in systemChanges.value)
  }

  /** Fewer changes never forbid the reuse that more changes allow, and a
      geometry-only change (cell and positions) always allows it. */
  lemma UseSavedDensityAntitone(fewer: set<string>, more: set<string>)
    requires fewer <= more
    ensures UseSavedDensity(Some(more)) ==> UseSavedDensity(Some(fewer))
    ensures fewer <= {"cell", "positions"} ==> UseSavedDensity(Some(fewer))
  {
    if UseSavedDensity(Some(more)) {
      forall x | x in fewer ensures x !in DensityInvalidating {
        assert x in more;
      }
    }
  }

  /** What the start of `write_input` comes to: nothing at all, the
      directives written, or the `TypeError` that `'density' in properties`
      raises at line 344 when the changes are known but the properties are
      `None`. */
  datatype PreambleOutcome = Skipped | Written(directives: seq<Directive>) | PropertiesNotIterable

  /** Lines 320-352: nothing is written when neither the changes nor the
      properties are known; otherwise `DM.UseSaveDM` (when the density can
      be reused), `SaveRho` (when the density is requested), the system
      name and label, and `SCFMustConverge`. The user's own fdf arguments,
      written before these, and the blocks written after them are not part
      of this function. */
  function Preamble(systemChanges: Option<set<string>>, properties: Option<set<string>>, fileLabel: string)
    : (r: PreambleOutcome)
    ensures r.Skipped? <==> systemChanges.None? && properties.None?
    ensures r.PropertiesNotIterable? <==> systemChanges.Some? && properties.None?
    ensures r.Written? ==> properties.Some?
    ensures r.Written? ==> (Directive("DM.UseSaveDM", Flag(true)) in r.directives <==> UseSavedDensity(systemChanges))
    ensures r.Written? ==> (Directive("SaveRho", Flag(true)) in r.directives <==> "density" in properties.value)
    ensures r.Written? ==> |r.directives| >= 3 && r.directives[|r.directives| - 1] == Directive("SCFMustConverge", Flag(true))
    ensures r.Written? ==> Directive("SystemName", Text(fileLabel)) in r.directives
                           && Directive("SystemLabel", Text(fileLabel)) in r.directives
    ensures r.Written? ==> |r.directives| == 3 + (if UseSavedDensity(systemChanges) then 1 else 0)
                                               + (if "density" in properties.value then 1 else 0)
  {
    if systemChanges.None? && properties.None? then Skipped
    else if properties.None? then PropertiesNotIterable
    else
      var reuse := if UseSavedDensity(systemChanges) then [Directive("DM.UseSaveDM", Flag(true))] else [];
      var rho := if "density" in properties.value then [Directive("SaveRho", Flag(true))] else [];
      Written(reuse + rho + [Directive("SystemName", Text(fileLabel)), Directive("SystemLabel", Text(fileLabel)),
                             Directive("SCFMustConverge", Flag(true))])
  }

  // ---------------------------------------------------------------------
  // Spin (lines 503-509) and exchange-correlation (lines 511-515)
  // ---------------------------------------------------------------------

  /** The spin directives: `SpinPolarized` false for UNPOLARIZED, true for
      COLLINEAR and FULL, `NonCollinearSpin` only for FULL; no spin value
      (the `None` that `set` admits) writes neither. */
  function SpinDirectives(spin: Option<string>): (ds: seq<Directive>)
    ensures Directive("SpinPolarized", Flag(true)) in ds <==> spin == Some("COLLINEAR") || spin == Some("FULL")
    ensures Directive("SpinPolarized", Flag(false)) in ds <==> spin == Some("UNPOLARIZED")
    ensures Directive("NonCollinearSpin", Flag(true)) in ds <==> spin == Some("FULL")
    ensures |ds| <= 2
    ensures ds == [] <==> spin.None? || spin.value !in {"UNPOLARIZED", "COLLINEAR", "FULL"}
  {
    if spin == Some("UNPOLARIZED") then [Directive("SpinPolarized", Flag(false))]
    else if spin == Some("COLLINEAR") then [Directive("SpinPolarized", Flag(true))]
    else if spin == Some("FULL") then [Directive("SpinPolarized", Flag(true)), Directive("NonCollinearSpin", Flag(true))]
    else []
  }

  /** `XC_functional`, then `XC_authors` unless the authors are None. */
  function XcDirectives(functional: string, authors: Option<string>): (ds: seq<Directive>)
    ensures |ds| >= 1 && ds[0] == Directive("XC_functional", Text(functional))
    ensures |ds| == 2 <==> authors.Some?
    ensures authors.Some? ==> ds[1] == Directive("XC_authors", Text(authors.value))
    ensures |ds| <= 2
  {
    [Directive("XC_functional", Text(functional))]
    + (if authors.Some? then [Directive("XC_authors", Text(authors.value))] else [])
  }

  // ---------------------------------------------------------------------
  // The initial spin block (lines 417-430)
  // ---------------------------------------------------------------------

  /** One line of `DM.InitSpin`: the 1-based atom index and its moment. */
  datatype InitSpin = InitSpin(atom: int, moment: real)

  /** The atom indices of the entries, in order. */
  function AtomsOf(entries: seq<InitSpin>): (atoms: seq<int>)
    ensures |atoms| == |entries|
    ensures forall e :: 0 <= e < |entries| ==> atoms[e] == entries[e].atom
  {
    seq(|entries|, e requires 0 <= e < |entries| => entries[e].atom)
  }

  /** The entries list the non-zero moments of the atoms from index `lo`
      on: 1-based indices above `lo` of non-zero moments, with those
      moments, in increasing index order, and every non-zero moment from
      `lo` on has its entry. */
  ghost predicate ListsNonZeroFrom(entries: seq<InitSpin>, magmoms: seq<real>, lo: nat)
  {
    && (forall e :: 0 <= e < |entries| ==>
          lo < entries[e].atom <= |magmoms|
          && entries[e].moment == magmoms[entries[e].atom - 1] && entries[e].moment != 0.0)
    && (forall e, f :: 0 <= e < f < |entries| ==> entries[e].atom < entries[f].atom)
    && (forall n :: lo <= n < |magmoms| && magmoms[n] != 0.0 ==> n + 1 in AtomsOf(entries))
  }

  /** The entries of the block for the moments `magmoms`. */
  ghost predicate ListsNonZeroMoments(entries: seq<InitSpin>, magmoms: seq<real>)
  {
    ListsNonZeroFrom(entries, magmoms, 0)
  }

  /** The loop of lines 426-428 over `enumerate(magmoms)`. */
  method NonZeroMoments(magmoms: seq<real>) returns (entries: seq<InitSpin>)
    ensures ListsNonZeroMoments(entries, magmoms)
  {
    entries := [];
    var n := 0;
    while n < |magmoms|
      invariant 0 <= n <= |magmoms|
      invariant forall e :: 0 <= e < |entries| ==>
        1 <= entries[e].atom <= n
        && entries[e].moment == magmoms[entries[e].atom - 1] && entries[e].moment != 0.0
      invariant forall e, f :: 0 <= e < f < |entries| ==> entries[e].atom < entries[f].atom
      invariant forall m :: 0 <= m < n && magmoms[m] != 0.0 ==> m + 1 in AtomsOf(entries)
    {
      if magmoms[n] != 0.0 {
        var x := InitSpin(n + 1, magmoms[n]);
        assert AtomsOf(entries + [x]) == AtomsOf(entries) + [n + 1];
        entries := entries + [x];
      }
      n := n + 1;
    }
  }

  /** Lines 424-430: the block is written, with the non-zero moments, for
      every spin setting except UNPOLARIZED (so also when spin is None);
      with UNPOLARIZED nothing is written, whatever the moments. */
  method InitSpinBlock(spin: Option<string>, magmoms: seq<real>) returns (block: Option<seq<InitSpin>>)
    ensures block.None? <==> spin == Some("UNPOLARIZED")
    ensures block.Some? ==> ListsNonZeroMoments(block.value, magmoms)
  {
    if spin == Some("UNPOLARIZED") {
      return None;
    }
    var entries := NonZeroMoments(magmoms);
    block := Some(entries);
  }

  /** The listing of the non-zero moments is unique: any two lists that
      meet the specification are equal. */
  lemma {:induction false} NonZeroMomentsUnique(a: seq<InitSpin>, b: seq<InitSpin>, magmoms: seq<real>, lo: nat)
    requires ListsNonZeroFrom(a, magmoms, lo) && ListsNonZeroFrom(b, magmoms, lo)
    ensures a == b
    decreases |a|
  {
    ListingEmpty(a, magmoms, lo);
    ListingEmpty(b, magmoms, lo);
    if |a| > 0 {
      FirstEntryIsLeast(a, b, magmoms, lo);
      FirstEntryIsLeast(b, a, magmoms, lo);
      assert a[0] == b[0];
      TailLists(a, magmoms, lo);
      TailLists(b, magmoms, lo);
      NonZeroMomentsUnique(a[1..], b[1..], magmoms, a[0].atom);
      assert a == [a[0]] + a[1..] && b == [b[0]] + b[1..];
    }
  }

  /** A listing is empty exactly when no moment from `lo` on is non-zero. */
  lemma ListingEmpty(a: seq<InitSpin>, magmoms: seq<real>, lo: nat)
    requires ListsNonZeroFrom(a, magmoms, lo)
    ensures |a| == 0 <==> forall n :: lo <= n < |magmoms| ==> magmoms[n] == 0.0
  {
    if |a| > 0 {
      var n := a[0].atom - 1;
      assert lo <= n < |magmoms| && magmoms[n] != 0.0;
    } else {
      forall n | lo <= n < |magmoms| ensures magmoms[n] == 0.0 {
        assert magmoms[n] != 0.0 ==> n + 1 in AtomsOf(a);
        assert AtomsOf(a) == [];
      }
    }
  }

  /** The first entry of one listing is not beyond the first of another. */
  lemma FirstEntryIsLeast(a: seq<InitSpin>, b: seq<InitSpin>, magmoms: seq<real>, lo: nat)
    requires ListsNonZeroFrom(a, magmoms, lo) && ListsNonZeroFrom(b, magmoms, lo)
    requires |a| > 0 && |b| > 0
    ensures a[0].atom <= b[0].atom
  {
    var n := b[0].atom - 1;
    assert n + 1 in AtomsOf(a);
    var e :| 0 <= e < |a| && AtomsOf(a)[e] == n + 1;
    assert e == 0 || a[0].atom < a[e].atom;
  }

  /** Past its first entry, a listing lists the moments after that entry's atom. */
  lemma TailLists(a: seq<InitSpin>, magmoms: seq<real>, lo: nat)
    requires ListsNonZeroFrom(a, magmoms, lo) && |a| > 0
    ensures ListsNonZeroFrom(a[1..], magmoms, a[0].atom)
  {
    var k := a[0].atom;
    var b := a[1..];
    forall e | 0 <= e < |b|
      ensures k < b[e].atom <= |magmoms| && b[e].moment == magmoms[b[e].atom - 1] && b[e].moment != 0.0
    {
      assert b[e] == a[e + 1];
    }
    forall e, f | 0 <= e < f < |b| ensures b[e].atom < b[f].atom {
      assert b[e] == a[e + 1] && b[f] == a[f + 1];
    }
    assert AtomsOf(a) == [k] + AtomsOf(b);
    forall n | k <= n < |magmoms| && magmoms[n] != 0.0
      ensures n + 1 in AtomsOf(b)
    {
      assert n + 1 in AtomsOf(a);
    }
  }
}
