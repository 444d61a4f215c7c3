/** Species resolution of the SIESTA calculator (`BaseSiesta.species`,
    ase/calculators/siesta/base_siesta.py lines 159-204).

    Every distinct chemical symbol among the atoms gets one default specie
    (the user's, when the species list holds one with tag None, otherwise one
    built from the global basis set); defaults are numbered 1..K in list
    order; every tagged override that matches at least one atom (same symbol
    and same tag) gets the next number. */
module Species {
  import opened Wrappers

  /** An atom as the resolver sees it: its chemical symbol and its integer
      tag (`atoms.get_tags()`, 0 unless set). */
  datatype Atom = Atom(symbol: string, tag: int)

  /** A basis set: one of the named sizes (`'DZP'`, ...), or an explicit
      PAO basis block, whose content this model keeps as opaque text. */
  datatype Basis = BasisName(name: string) | PaoBasisBlock(block: string)

  /** A `Specie` record. `tag == None` marks the default specie of its symbol. */
  datatype Specie = Specie(symbol: string, tag: Option<int>, basis: Basis,
                           pseudopotential: Option<string>, isGhost: bool)

  /** What `species()` returns: the species list and the per-atom numbers. */
  datatype Resolution = Resolution(species: seq<Specie>, numbers: seq<int>)

  /** The only failure: the `assert` of line 183. */
  datatype SpeciesError = DefaultCountMismatch

  // ---------------------------------------------------------------------
  // Sequence helpers
  // ---------------------------------------------------------------------

  /** `atoms.get_chemical_symbols()`. */
  function Symbols(atoms: seq<Atom>): (s: seq<string>)
    ensures |s| == |atoms|
    ensures forall k :: 0 <= k < |atoms| ==> s[k] == atoms[k].symbol
  {
    seq(|atoms|, k requires 0 <= k < |atoms| => atoms[k].symbol)
  }

  /** `[s['symbol'] for s in species]`. */
  function SymbolsOf(sp: seq<Specie>): (s: seq<string>)
    ensures |s| == |sp|
    ensures forall i :: 0 <= i < |sp| ==> s[i] == sp[i].symbol
  {
    seq(|sp|, i requires 0 <= i < |sp| => sp[i].symbol)
  }

  lemma SymbolsOfConcat(a: seq<Specie>, b: seq<Specie>)
    ensures SymbolsOf(a + b) == SymbolsOf(a) + SymbolsOf(b)
  {
  }

  function Elems(s: seq<string>): set<string>
  {
    set x | x in s
  }

  predicate HasDuplicates(s: seq<string>)
  {
    exists i, j :: 0 <= i < j < |s| && s[i] == s[j]
  }

  /** The position of the first occurrence of `x` in `s`. */
  function IndexOf(s: seq<string>, x: string): (r: nat)
    requires x in s
    ensures r < |s| && s[r] == x
    ensures forall i :: 0 <= i < r ==> s[i] != x
  {
    if s[0] == x then 0 else 1 + IndexOf(s[1..], x)
  }

  /** The distinct elements of `s` in order of first appearance. */
  function Distinct(s: seq<string>): (d: seq<string>)
    ensures forall x :: x in d <==> x in s
    ensures !HasDuplicates(d)
  {
    if |s| == 0 then []
    else
      var d := Distinct(s[..|s| - 1]);
      var x := s[|s| - 1];
      assert forall y :: y in s <==> y in s[..|s| - 1] || y == x by {
        assert s == s[..|s| - 1] + [x];
      }
      if x in d then d else d + [x]
  }

  /** The elements of `s` that are not in `exclude`, in order. */
  function Without(s: seq<string>, exclude: seq<string>): (r: seq<string>)
    ensures forall x :: x in r <==> x in s && x !in exclude
    ensures !HasDuplicates(s) ==> !HasDuplicates(r)
  {
    if |s| == 0 then []
    else
      var r := Without(s[..|s| - 1], exclude);
      var x := s[|s| - 1];
      assert forall y :: y in s <==> y in s[..|s| - 1] || y == x by {
        assert s == s[..|s| - 1] + [x];
      }
      assert !HasDuplicates(s) ==> x !in s[..|s| - 1];
      var p := s[..|s| - 1];
      assert !HasDuplicates(s) ==> !HasDuplicates(p) by {
        if !HasDuplicates(s) {
          forall i, j | 0 <= i < j < |p| ensures p[i] != p[j] {
            assert s[i] != s[j];
          }
        }
      }
      if x in exclude then r else r + [x]
  }

  // ---------------------------------------------------------------------
  // Default species (lines 171-183)
  // ---------------------------------------------------------------------

  /** `[s for s in species if s['tag'] is None and s['symbol'] in symbols]`. */
  function UserDefaults(species: seq<Specie>, atoms: seq<Atom>): (d: seq<Specie>)
    ensures forall x :: x in d <==> x in species && x.tag.None? && x.symbol in Symbols(atoms)
  {
    if |species| == 0 then []
    else
      var d := UserDefaults(species[..|species| - 1], atoms);
      var s := species[|species| - 1];
      assert forall y :: y in species <==> y in species[..|species| - 1] || y == s by {
        assert species == species[..|species| - 1] + [s];
      }
      if s.tag.None? && s.symbol in Symbols(atoms) then d + [s] else d
  }

  /** The list comprehension keeps order: `d` is `species` at the strictly
      increasing positions `idx`. */
  ghost predicate PicksInOrder(d: seq<Specie>, species: seq<Specie>, idx: seq<int>)
  {
    && |idx| == |d|
    && (forall k :: 0 <= k < |idx| ==> 0 <= idx[k] < |species| && d[k] == species[idx[k]])
    && (forall k, l :: 0 <= k < l < |idx| ==> idx[k] < idx[l])
  }

  /** A selection from a prefix is one from the whole list, with or without
      the last element. */
  lemma PicksSnoc(d: seq<Specie>, species: seq<Specie>, idx: seq<int>)
    requires |species| >= 1 && PicksInOrder(d, species[..|species| - 1], idx)
    ensures PicksInOrder(d, species, idx)
    ensures PicksInOrder(d + [species[|species| - 1]], species, idx + [|species| - 1])
    ensures forall i :: 0 <= i < |species| - 1 ==> (i in idx + [|species| - 1] <==> i in idx)
    ensures |species| - 1 !in idx
  {
    var init := species[..|species| - 1];
    forall k | 0 <= k < |idx| ensures d[k] == species[idx[k]] {
      assert init[idx[k]] == species[idx[k]];
    }
  }

  /** The positions of `species` that `UserDefaults` keeps. */
  ghost function UserDefaultPositions(species: seq<Specie>, atoms: seq<Atom>): seq<int>
  {
    if |species| == 0 then []
    else
      var s := species[|species| - 1];
      var idx := UserDefaultPositions(species[..|species| - 1], atoms);
      if s.tag.None? && s.symbol in Symbols(atoms) then idx + [|species| - 1] else idx
  }

  /** Line 172 keeps every untagged specie whose symbol occurs among the
      atoms, each once, in the order of the list. */
  lemma {:induction false} UserDefaultsInOrder(species: seq<Specie>, atoms: seq<Atom>)
    ensures var idx := UserDefaultPositions(species, atoms);
      && PicksInOrder(UserDefaults(species, atoms), species, idx)
      && forall i :: 0 <= i < |species| ==>
           (i in idx <==> species[i].tag.None? && species[i].symbol in Symbols(atoms))
  {
    if |species| > 0 {
      var init := species[..|species| - 1];
      UserDefaultsInOrder(init, atoms);
      PicksSnoc(UserDefaults(init, atoms), species, UserDefaultPositions(init, atoms));
      forall i | 0 <= i < |species| - 1 ensures species[i] == init[i] {
      }
    }
  }

  /** The specie synthesised for a symbol without a user default (lines 177-180). */
  function DefaultSpecie(symbol: string, basis: Basis): Specie
  {
    Specie(symbol, None, basis, None, false)
  }

  function Synthesised(symbols: seq<string>, basis: Basis): (sp: seq<Specie>)
    ensures SymbolsOf(sp) == symbols
    ensures forall i :: 0 <= i < |sp| ==> sp[i] == DefaultSpecie(symbols[i], basis)
  {
    seq(|symbols|, i requires 0 <= i < |symbols| => DefaultSpecie(symbols[i], basis))
  }

  /** The symbols that get a synthesised default: the distinct symbols of
      the atoms, in order of first appearance, that no user default covers. */
  function SynthesisedSymbols(atoms: seq<Atom>, species: seq<Specie>): seq<string>
  {
    Without(Distinct(Symbols(atoms)), SymbolsOf(UserDefaults(species, atoms)))
  }

  /** `default_species` after the loop of lines 175-182. */
  function Defaults(atoms: seq<Atom>, species: seq<Specie>, basis: Basis): seq<Specie>
  {
    UserDefaults(species, atoms) + Synthesised(SynthesisedSymbols(atoms, species), basis)
  }

  /** Two user defaults share a symbol that occurs among the atoms: exactly
      the case in which the assertion of line 183 fails. */
  predicate DuplicateDefault(species: seq<Specie>, atoms: seq<Atom>)
  {
    HasDuplicates(SymbolsOf(UserDefaults(species, atoms)))
  }

  // ---------------------------------------------------------------------
  // Tagged overrides (lines 194-201)
  // ---------------------------------------------------------------------

  /** `[s for s in species if not s['tag'] is None]`. */
  function Tagged(species: seq<Specie>): (t: seq<Specie>)
    ensures forall x :: x in t <==> x in species && x.tag.Some?
  {
    if |species| == 0 then []
    else
      var t := Tagged(species[..|species| - 1]);
      var s := species[|species| - 1];
      assert forall y :: y in species <==> y in species[..|species| - 1] || y == s by {
        assert species == species[..|species| - 1] + [s];
      }
      if s.tag.Some? then t + [s] else t
  }

  /** The positions of `species` that `Tagged` keeps. */
  ghost function TaggedPositions(species: seq<Specie>): seq<int>
  {
    if |species| == 0 then []
    else
      var idx := TaggedPositions(species[..|species| - 1]);
      if species[|species| - 1].tag.Some? then idx + [|species| - 1] else idx
  }

  /** Line 194 keeps every tagged specie, each once, in the order of the list. */
  lemma {:induction false} TaggedInOrder(species: seq<Specie>)
    ensures var idx := TaggedPositions(species);
      && PicksInOrder(Tagged(species), species, idx)
      && forall i :: 0 <= i < |species| ==> (i in idx <==> species[i].tag.Some?)
  {
    if |species| > 0 {
      var init := species[..|species| - 1];
      TaggedInOrder(init);
      PicksSnoc(Tagged(init), species, TaggedPositions(init));
      forall i | 0 <= i < |species| - 1 ensures species[i] == init[i] {
      }
    }
  }

  /** The override applies to the atom: same symbol and same tag (line 198). */
  predicate Matches(sp: Specie, a: Atom)
  {
    sp.tag == Some(a.tag) && sp.symbol == a.symbol
  }

  /** The override matches at least one atom, so it takes a number (line 199). */
  predicate Used(sp: Specie, atoms: seq<Atom>)
  {
    exists k :: 0 <= k < |atoms| && Matches(sp, atoms[k])
  }

  /** How many of the overrides take a number. */
  function UsedCount(t: seq<Specie>, atoms: seq<Atom>): (n: nat)
    ensures n <= |t|
  {
    if |t| == 0 then 0
    else UsedCount(t[..|t| - 1], atoms) + (if Used(t[|t| - 1], atoms) then 1 else 0)
  }

  /** The last override that matches the atom, or -1. */
  function LastMatch(t: seq<Specie>, a: Atom): (j: int)
    ensures -1 <= j < |t|
    ensures j >= 0 ==> Matches(t[j], a)
    ensures forall i :: j < i < |t| ==> !Matches(t[i], a)
  {
    if |t| == 0 then -1
    else if Matches(t[|t| - 1], a) then |t| - 1
    else LastMatch(t[..|t| - 1], a)
  }

  /** The number override `t[j]` takes when it is used: the next after the
      K defaults and the used overrides before it. */
  function OverrideId(k: nat, t: seq<Specie>, atoms: seq<Atom>, j: nat): int
    requires j <= |t|
  {
    k + 1 + UsedCount(t[..j], atoms)
  }

  /** The number atom `a` ends up with, given the default symbols in list
      order and the tagged overrides: the last override that matches it
      decides; otherwise the position of its symbol among the defaults; an
      atom covered by neither keeps the 0 of `np.zeros`. */
  function AtomId(a: Atom, defaultSymbols: seq<string>, t: seq<Specie>, atoms: seq<Atom>): int
  {
    var j := LastMatch(t, a);
    if j >= 0 then OverrideId(|defaultSymbols|, t, atoms, j)
    else if a.symbol in defaultSymbols then IndexOf(defaultSymbols, a.symbol) + 1
    else 0
  }

  function Ids(atoms: seq<Atom>, defaultSymbols: seq<string>, t: seq<Specie>): (ids: seq<int>)
    ensures |ids| == |atoms|
    ensures forall k :: 0 <= k < |atoms| ==> ids[k] == AtomId(atoms[k], defaultSymbols, t, atoms)
  {
    seq(|atoms|, k requires 0 <= k < |atoms| => AtomId(atoms[k], defaultSymbols, t, atoms))
  }

  /** What `species(atoms)` returns when the assertion holds. */
  function Resolved(atoms: seq<Atom>, species: seq<Specie>, basis: Basis): Resolution
  {
    var defaults := Defaults(atoms, species, basis);
    Resolution(defaults + Tagged(species), Ids(atoms, SymbolsOf(defaults), Tagged(species)))
  }

  // ---------------------------------------------------------------------
  // The numpy operations used by the resolver
  // ---------------------------------------------------------------------

  /** `symbols == symbol`, elementwise. */
  function SymbolMask(atoms: seq<Atom>, symbol: string): (mask: seq<bool>)
    ensures |mask| == |atoms|
    ensures forall k :: 0 <= k < |atoms| ==> mask[k] == (atoms[k].symbol == symbol)
  {
    seq(|atoms|, k requires 0 <= k < |atoms| => atoms[k].symbol == symbol)
  }

  /** `np.logical_and(tags == tag, symbols == symbol)`. */
  function OverrideMask(atoms: seq<Atom>, sp: Specie): (mask: seq<bool>)
    ensures |mask| == |atoms|
    ensures forall k :: 0 <= k < |atoms| ==> mask[k] == Matches(sp, atoms[k])
  {
    seq(|atoms|, k requires 0 <= k < |atoms| => Matches(sp, atoms[k]))
  }

  /** `sum(mask)`. */
  function Count(mask: seq<bool>): (n: nat)
    ensures n <= |mask|
    ensures n > 0 <==> exists k :: 0 <= k < |mask| && mask[k]
  {
    if |mask| == 0 then 0
    else Count(mask[..|mask| - 1]) + (if mask[|mask| - 1] then 1 else 0)
  }

  /** `numbers[mask] = value`. */
  method Paint(numbers: array<int>, mask: seq<bool>, value: int)
    requires numbers.Length == |mask|
    modifies numbers
    ensures forall k :: 0 <= k < numbers.Length ==>
      numbers[k] == (if mask[k] then value else old(numbers[k]))
  {
    var k := 0;
    while k < numbers.Length
      invariant 0 <= k <= numbers.Length
      invariant forall m :: 0 <= m < k ==> numbers[m] == (if mask[m] then value else old(numbers[m]))
      invariant forall m :: k <= m < numbers.Length ==> numbers[m] == old(numbers[m])
    {
      if mask[k] {
        numbers[k] := value;
      }
      k := k + 1;
    }
  }

  // ---------------------------------------------------------------------
  // The resolver
  // ---------------------------------------------------------------------

  /** Lines 171-182: the user defaults whose symbol is present, then one
      synthesised default per further symbol, in order of first appearance. */
  method CollectDefaults(atoms: seq<Atom>, species: seq<Specie>, basis: Basis)
    returns (defaultSpecies: seq<Specie>, defaultSymbols: seq<string>)
    ensures defaultSpecies == Defaults(atoms, species, basis)
    ensures defaultSymbols == SymbolsOf(defaultSpecies)
  {
    var symbols := Symbols(atoms);
    var user := UserDefaults(species, atoms);
    ghost var u := SymbolsOf(user);
    defaultSpecies := user;
    defaultSymbols := SymbolsOf(user);
    var k := 0;
    while k < |symbols|
      invariant 0 <= k <= |symbols|
      invariant defaultSymbols == u + Without(Distinct(symbols[..k]), u)
      invariant defaultSpecies == user + Synthesised(Without(Distinct(symbols[..k]), u), basis)
    {
      var symbol := symbols[k];
      ghost var w := Without(Distinct(symbols[..k]), u);
      assert symbols[..k + 1] == symbols[..k] + [symbol];
      CollectStep(symbols[..k], symbol, u);
      SynthesisedSnoc(w, symbol, basis);
      if symbol !in defaultSymbols {
        AppendAssoc(user, Synthesised(w, basis), DefaultSpecie(symbol, basis));
        AppendAssoc(u, w, symbol);
        defaultSpecies := defaultSpecies + [DefaultSpecie(symbol, basis)];
        defaultSymbols := defaultSymbols + [symbol];
      }
      k := k + 1;
    }
    assert symbols[..k] == symbols;
    SymbolsOfConcat(user, Synthesised(SynthesisedSymbols(atoms, species), basis));
  }

  /** Lines 186-191: a fresh zero array, then every atom gets the 1-based
      position of its symbol among the (duplicate-free) default symbols. */
  method NumberDefaults(atoms: seq<Atom>, defaultSymbols: seq<string>)
    returns (numbers: array<int>, i: int)
    requires !HasDuplicates(defaultSymbols)
    requires forall k :: 0 <= k < |atoms| ==> atoms[k].symbol in defaultSymbols
    ensures fresh(numbers)
    ensures i == |defaultSymbols| + 1
    ensures numbers[..] == Ids(atoms, defaultSymbols, [])
  {
    numbers := new int[|atoms|](_ => 0);
    i := 1;
    var d := 0;
    while d < |defaultSymbols|
      invariant 0 <= d <= |defaultSymbols|
      invariant i == d + 1
      invariant numbers.Length == |atoms|
      invariant forall m :: 0 <= m < numbers.Length ==>
        numbers[m] == (if atoms[m].symbol in defaultSymbols[..d]
                       then IndexOf(defaultSymbols, atoms[m].symbol) + 1 else 0)
    {
      assert defaultSymbols[..d + 1] == defaultSymbols[..d] + [defaultSymbols[d]];
      assert IndexOf(defaultSymbols, defaultSymbols[d]) == d;
      Paint(numbers, SymbolMask(atoms, defaultSymbols[d]), i);
      i := i + 1;
      d := d + 1;
    }
    assert defaultSymbols[..d] == defaultSymbols;
  }

  /** The numbers are those the atoms get from the defaults and the
      overrides `t`. */
  ghost predicate Numbered(ns: seq<int>, atoms: seq<Atom>, defaultSymbols: seq<string>, t: seq<Specie>)
  {
    |ns| == |atoms| && forall m :: 0 <= m < |ns| ==> ns[m] == AtomId(atoms[m], defaultSymbols, t, atoms)
  }

  /** One pass of the override loop: painting the atoms override `t[j]`
      matches with the next number, when it matches any, gives the numbers
      for the overrides up to and including `t[j]`. */
  lemma OverrideStep(ns: seq<int>, after: seq<int>, atoms: seq<Atom>, defaultSymbols: seq<string>, t: seq<Specie>, j: nat, i: int)
    requires j < |t| && Numbered(ns, atoms, defaultSymbols, t[..j])
    requires i == |defaultSymbols| + 1 + UsedCount(t[..j], atoms)
    requires |after| == |ns|
    requires var mask := OverrideMask(atoms, t[j]);
      forall m :: 0 <= m < |after| ==> after[m] == (if Count(mask) > 0 && mask[m] then i else ns[m])
    ensures Numbered(after, atoms, defaultSymbols, t[..j + 1])
    ensures UsedCount(t[..j + 1], atoms) == UsedCount(t[..j], atoms) + (if Count(OverrideMask(atoms, t[j])) > 0 then 1 else 0)
  {
    assert t[..j + 1] == t[..j] + [t[j]];
    var mask := OverrideMask(atoms, t[j]);
    forall m | 0 <= m < |atoms|
      ensures AtomIdSnocHolds(atoms[m], defaultSymbols, t[..j], t[j], atoms)
    {
      AtomIdSnoc(atoms[m], defaultSymbols, t[..j], t[j], atoms);
    }
    UsedCountSnoc(t[..j], t[j], atoms);
    if Used(t[j], atoms) {
      var k :| 0 <= k < |atoms| && Matches(t[j], atoms[k]);
      assert mask[k];
    }
  }

  /** Lines 194-201: each override that matches at least one atom renumbers
      the atoms it matches with the next number. */
  method NumberOverrides(numbers: array<int>, atoms: seq<Atom>, defaultSymbols: seq<string>,
                         tagged: seq<Specie>, i0: int)
    requires numbers.Length == |atoms|
    requires i0 == |defaultSymbols| + 1
    requires numbers[..] == Ids(atoms, defaultSymbols, [])
    modifies numbers
    ensures numbers[..] == Ids(atoms, defaultSymbols, tagged)
  {
    var i := i0;
    var t := 0;
    assert tagged[..0] == [];
    while t < |tagged|
      invariant 0 <= t <= |tagged|
      invariant i == |defaultSymbols| + 1 + UsedCount(tagged[..t], atoms)
      invariant Numbered(numbers[..], atoms, defaultSymbols, tagged[..t])
    {
      ghost var before := numbers[..];
      var mask := OverrideMask(atoms, tagged[t]);
      if Count(mask) > 0 {
        Paint(numbers, mask, i);
        i := i + 1;
      }
      OverrideStep(before, numbers[..], atoms, defaultSymbols, tagged, t, i0 + UsedCount(tagged[..t], atoms));
      t := t + 1;
    }
    assert tagged[..t] == tagged;
  }

  /** `BaseSiesta.species(atoms)`, with `self['species']` and
      `self['basis_set']` passed in. Fails exactly when the assertion of
      line 183 does; otherwise returns the defaults followed by all tagged
      overrides (line 202) and the per-atom numbers. */
  method ResolveSpecies(atoms: seq<Atom>, species: seq<Specie>, basis: Basis)
    returns (r: Result<Resolution, SpeciesError>)
    ensures r.Failure? <==> DuplicateDefault(species, atoms)
    ensures r.Success? ==> r.value == Resolved(atoms, species, basis)
  {
    var defaultSpecies, defaultSymbols := CollectDefaults(atoms, species, basis);
    var user := UserDefaults(species, atoms);
    SymbolsOfConcat(user, Synthesised(SynthesisedSymbols(atoms, species), basis));
    UserDefaultsPresent(atoms, species);
    DefaultCount(SymbolsOf(user), Symbols(atoms));
    if |defaultSpecies| != |Distinct(Symbols(atoms))| {
      // assert len(default_species) == len(np.unique(symbols))
      return Failure(DefaultCountMismatch);
    }
    DefaultsCoverAtoms(atoms, species, basis);
    assert forall k :: 0 <= k < |atoms| ==> atoms[k].symbol in Symbols(atoms);
    var numbers, i := NumberDefaults(atoms, defaultSymbols);
    var tagged := Tagged(species);
    NumberOverrides(numbers, atoms, defaultSymbols, tagged, i);
    r := Success(Resolution(defaultSpecies + tagged, numbers[..]));
  }

  // ---------------------------------------------------------------------
  // Lemmas used by the resolver's proof
  // ---------------------------------------------------------------------

  lemma AppendAssoc<T>(a: seq<T>, b: seq<T>, x: T)
    ensures (a + b) + [x] == a + (b + [x])
  {
  }

  lemma SynthesisedSnoc(w: seq<string>, x: string, basis: Basis)
    ensures Synthesised(w + [x], basis) == Synthesised(w, basis) + [DefaultSpecie(x, basis)]
  {
  }

  /** One step of the loop of lines 175-182: a symbol is appended exactly
      when it is not yet among the default symbols. */
  lemma CollectStep(p: seq<string>, x: string, u: seq<string>)
    ensures Without(Distinct(p + [x]), u)
         == if x in u + Without(Distinct(p), u) then Without(Distinct(p), u)
            else Without(Distinct(p), u) + [x]
  {
    DistinctWithoutSnoc(p, x, u);
    var w := Without(Distinct(p), u);
    assert x in u + w <==> x in u || x in w;
  }

  lemma DistinctWithoutSnoc(p: seq<string>, x: string, u: seq<string>)
    ensures Without(Distinct(p + [x]), u)
         == if x in p || x in u then Without(Distinct(p), u) else Without(Distinct(p), u) + [x]
  {
    assert (p + [x])[..|p|] == p;
    var d := Distinct(p);
    if x !in p {
      assert (d + [x])[..|d|] == d;
    }
  }

  lemma DistinctPrefix(s: seq<string>, i: nat, j: nat)
    requires 0 <= i < j < |s| && s[i] == s[j]
    ensures HasDuplicates(s)
  {
  }

  lemma {:induction false} CardElems(s: seq<string>)
    ensures |Elems(s)| <= |s|
    ensures |Elems(s)| == |s| <==> !HasDuplicates(s)
  {
    if |s| > 0 {
      var p := s[..|s| - 1];
      var x := s[|s| - 1];
      CardElems(p);
      assert s == p + [x];
      assert Elems(s) == Elems(p) + {x};
      if x in p {
        var i := IndexOf(p, x);
        assert s[i] == s[|s| - 1];
        assert Elems(s) == Elems(p);
      } else {
        assert x !in Elems(p);
        assert |Elems(s)| == |Elems(p)| + 1;
        if HasDuplicates(s) {
          var i, j :| 0 <= i < j < |s| && s[i] == s[j];
          assert j < |s| - 1;
          assert p[i] == p[j];
        }
        if HasDuplicates(p) {
          var i, j :| 0 <= i < j < |p| && p[i] == p[j];
          assert s[i] == s[j];
        }
      }
    }
  }

  lemma SetMinusCard(a: set<string>, b: set<string>)
    requires b <= a
    ensures |a - b| == |a| - |b|
  {
    assert a == (a - b) + b;
    assert (a - b) !! b;
  }

  /** The count test of line 183 passes exactly when the user defaults
      whose symbol is present have distinct symbols. */
  lemma DefaultCount(u: seq<string>, symbols: seq<string>)
    requires forall x :: x in u ==> x in symbols
    ensures |u| + |Without(Distinct(symbols), u)| == |Distinct(symbols)| <==> !HasDuplicates(u)
  {
    var d := Distinct(symbols);
    var w := Without(d, u);
    CardElems(d);
    CardElems(w);
    CardElems(u);
    assert Elems(w) == Elems(d) - Elems(u);
    assert Elems(u) <= Elems(d);
    SetMinusCard(Elems(d), Elems(u));
  }

  lemma NoDuplicatesConcat(a: seq<string>, b: seq<string>)
    requires !HasDuplicates(a) && !HasDuplicates(b)
    requires forall x :: x in b ==> x !in a
    ensures !HasDuplicates(a + b)
  {
    forall i, j | 0 <= i < j < |a + b| ensures (a + b)[i] != (a + b)[j] {
      if j < |a| {
        assert (a + b)[i] == a[i] && (a + b)[j] == a[j];
      } else if i >= |a| {
        assert (a + b)[i] == b[i - |a|] && (a + b)[j] == b[j - |a|];
      } else {
        assert (a + b)[i] == a[i] && (a + b)[j] == b[j - |a|];
        assert b[j - |a|] in b;
      }
    }
  }

  lemma UserDefaultsPresent(atoms: seq<Atom>, species: seq<Specie>)
    ensures forall x :: x in SymbolsOf(UserDefaults(species, atoms)) ==> x in Symbols(atoms)
  {
    var user := UserDefaults(species, atoms);
    var u := SymbolsOf(user);
    forall x | x in u ensures x in Symbols(atoms) {
      var i :| 0 <= i < |u| && u[i] == x;
      assert user[i] in user;
    }
  }

  /** With no duplicated user default, the defaults have one entry per
      distinct symbol of the atoms, with no symbol twice, and cover every atom. */
  lemma DefaultsCoverAtoms(atoms: seq<Atom>, species: seq<Specie>, basis: Basis)
    requires !DuplicateDefault(species, atoms)
    ensures var ds := SymbolsOf(Defaults(atoms, species, basis));
      && !HasDuplicates(ds)
      && |ds| == |Distinct(Symbols(atoms))|
      && (forall x :: x in ds <==> x in Symbols(atoms))
  {
    var user := UserDefaults(species, atoms);
    var u := SymbolsOf(user);
    var w := SynthesisedSymbols(atoms, species);
    SymbolsOfConcat(user, Synthesised(w, basis));
    assert SymbolsOf(Defaults(atoms, species, basis)) == u + w;
    UserDefaultsPresent(atoms, species);
    NoDuplicatesConcat(u, w);
    DefaultCount(u, Symbols(atoms));
    forall x | x in Symbols(atoms) ensures x in u + w {
      if x !in u {
        assert x in w;
      }
    }
  }

  lemma UsedCountSnoc(t: seq<Specie>, x: Specie, atoms: seq<Atom>)
    ensures UsedCount(t + [x], atoms) == UsedCount(t, atoms) + (if Used(x, atoms) then 1 else 0)
  {
    assert (t + [x])[..|t|] == t;
  }

  ghost predicate AtomIdSnocHolds(a: Atom, ds: seq<string>, t: seq<Specie>, x: Specie, atoms: seq<Atom>)
  {
    AtomId(a, ds, t + [x], atoms)
      == if Matches(x, a) then |ds| + 1 + UsedCount(t, atoms) else AtomId(a, ds, t, atoms)
  }

  /** Appending an override renumbers exactly the atoms it matches. */
  lemma AtomIdSnoc(a: Atom, ds: seq<string>, t: seq<Specie>, x: Specie, atoms: seq<Atom>)
    ensures AtomIdSnocHolds(a, ds, t, x, atoms)
  {
    var t' := t + [x];
    assert t'[..|t|] == t;
    if !Matches(x, a) {
      var j := LastMatch(t, a);
      assert LastMatch(t', a) == j;
      if j >= 0 {
        assert t'[..j] == t[..j];
      }
    }
  }

  // ---------------------------------------------------------------------
  // Properties of the resolution
  // ---------------------------------------------------------------------

  /** Every atom gets a number from 1 to K plus the number of used overrides;
      an atom no override matches gets the number of its symbol's default,
      and that default carries the atom's symbol. */
  lemma {:induction false} IdsInRange(atoms: seq<Atom>, species: seq<Specie>, basis: Basis, k: nat)
    requires !DuplicateDefault(species, atoms)
    requires k < |atoms|
    ensures var defaults := Defaults(atoms, species, basis);
      var id := Resolved(atoms, species, basis).numbers[k];
      && 1 <= id <= |defaults| + UsedCount(Tagged(species), atoms)
      && (LastMatch(Tagged(species), atoms[k]) < 0 ==>
            id <= |defaults| && defaults[id - 1].symbol == atoms[k].symbol)
  {
    var defaults := Defaults(atoms, species, basis);
    var t := Tagged(species);
    DefaultsCoverAtoms(atoms, species, basis);
    assert atoms[k].symbol in Symbols(atoms);
    IdBounds(atoms, defaults, t, k);
  }

  /** The same for any defaults holding the atom's symbol and any tagged
      overrides. */
  lemma IdBounds(atoms: seq<Atom>, defaults: seq<Specie>, t: seq<Specie>, k: nat)
    requires k < |atoms| && atoms[k].symbol in SymbolsOf(defaults)
    ensures var id := AtomId(atoms[k], SymbolsOf(defaults), t, atoms);
      && 1 <= id <= |defaults| + UsedCount(t, atoms)
      && (LastMatch(t, atoms[k]) < 0 ==> id <= |defaults| && defaults[id - 1].symbol == atoms[k].symbol)
  {
    var j := LastMatch(t, atoms[k]);
    if j >= 0 {
      UsedPrefixBound(t, atoms, j);
      assert Used(t[j], atoms) by { assert Matches(t[j], atoms[k]); }
    }
  }

  /** A used override at position j counts strictly before the whole list. */
  lemma {:induction false} UsedPrefixBound(t: seq<Specie>, atoms: seq<Atom>, j: nat)
    requires j < |t|
    ensures Used(t[j], atoms) ==> UsedCount(t[..j], atoms) + 1 <= UsedCount(t, atoms)
    ensures UsedCount(t[..j], atoms) <= UsedCount(t, atoms)
    decreases |t|
  {
    if j < |t| - 1 {
      var p := t[..|t| - 1];
      assert p[..j] == t[..j];
      assert p[j] == t[j];
      UsedPrefixBound(p, atoms, j);
    } else {
      assert t[..j] == t[..|t| - 1];
    }
  }

  /** Atoms of one symbol that no override matches share their default's number. */
  lemma SameSymbolSameId(atoms: seq<Atom>, species: seq<Specie>, basis: Basis, k1: nat, k2: nat)
    requires k1 < |atoms| && k2 < |atoms|
    requires atoms[k1].symbol == atoms[k2].symbol
    requires LastMatch(Tagged(species), atoms[k1]) < 0 && LastMatch(Tagged(species), atoms[k2]) < 0
    ensures Resolved(atoms, species, basis).numbers[k1] == Resolved(atoms, species, basis).numbers[k2]
  {
  }

  /** `Distinct` lists symbols in order of first appearance. */
  lemma {:induction false} DistinctInFirstAppearanceOrder(s: seq<string>, i: nat, j: nat)
    requires i < j < |Distinct(s)|
    ensures Distinct(s)[i] in s && Distinct(s)[j] in s
    ensures IndexOf(s, Distinct(s)[i]) < IndexOf(s, Distinct(s)[j])
  {
    var p := s[..|s| - 1];
    var x := s[|s| - 1];
    var d := Distinct(p);
    assert s == p + [x];
    if x in d {
      DistinctInFirstAppearanceOrder(p, i, j);
      IndexOfSnoc(p, x, d[i]);
      IndexOfSnoc(p, x, d[j]);
    } else {
      IndexOfSnoc(p, x, Distinct(s)[i]);
      if j < |d| {
        DistinctInFirstAppearanceOrder(p, i, j);
        IndexOfSnoc(p, x, d[j]);
      } else {
        assert Distinct(s)[j] == x;
        assert x !in p;
        assert IndexOf(s, x) == |p|;
      }
    }
  }

  lemma IndexOfSnoc(p: seq<string>, x: string, y: string)
    requires y in p
    ensures IndexOf(p + [x], y) == IndexOf(p, y)
  {
    var k := IndexOf(p, y);
    assert (p + [x])[k] == y;
    var k' := IndexOf(p + [x], y);
    assert k' <= k;
    assert p[k'] == y;
  }

  /** `Without` keeps the relative order of what it keeps. */
  lemma {:induction false} WithoutIsSubsequence(s: seq<string>, u: seq<string>, i: nat, j: nat)
    requires !HasDuplicates(s)
    requires i < j < |Without(s, u)|
    ensures Without(s, u)[i] in s && Without(s, u)[j] in s
    ensures IndexOf(s, Without(s, u)[i]) < IndexOf(s, Without(s, u)[j])
  {
    var p := s[..|s| - 1];
    var x := s[|s| - 1];
    assert s == p + [x];
    assert !HasDuplicates(p) by {
      forall a, b | 0 <= a < b < |p| ensures p[a] != p[b] {
        assert s[a] != s[b];
      }
    }
    var w := Without(p, u);
    assert x !in p;
    if j < |w| {
      WithoutIsSubsequence(p, u, i, j);
      IndexOfSnoc(p, x, w[i]);
      IndexOfSnoc(p, x, w[j]);
    } else {
      assert Without(s, u)[j] == x;
      assert Without(s, u)[i] == w[i];
      IndexOfSnoc(p, x, w[i]);
      assert IndexOf(s, x) == |p|;
    }
  }

  /** The synthesised defaults follow the user defaults and come in order of
      first appearance among the atoms; they are exactly the present symbols
      that no user default covers. */
  lemma SynthesisedOrder(atoms: seq<Atom>, species: seq<Specie>, basis: Basis, i: nat, j: nat)
    requires i < j < |SynthesisedSymbols(atoms, species)|
    ensures var w := SynthesisedSymbols(atoms, species);
      && w[i] in Symbols(atoms) && w[j] in Symbols(atoms)
      && IndexOf(Symbols(atoms), w[i]) < IndexOf(Symbols(atoms), w[j])
  {
    var s := Symbols(atoms);
    var d := Distinct(s);
    var u := SymbolsOf(UserDefaults(species, atoms));
    var w := Without(d, u);
    WithoutIsSubsequence(d, u, i, j);
    var a := IndexOf(d, w[i]);
    var b := IndexOf(d, w[j]);
    DistinctInFirstAppearanceOrder(s, a, b);
  }

  /** A used override takes a number from K+1 to K+U (U the number of used
      overrides), each such number is taken by exactly one used override,
      and a later used override takes a larger number. */
  lemma {:induction false} OverrideIdsConsecutive(k: nat, t: seq<Specie>, atoms: seq<Atom>, n: int)
    ensures (exists j :: 0 <= j < |t| && Used(t[j], atoms) && OverrideId(k, t, atoms, j) == n)
            <==> k + 1 <= n <= k + UsedCount(t, atoms)
    decreases |t|
  {
    if |t| > 0 {
      var p := t[..|t| - 1];
      var x := t[|t| - 1];
      assert forall j :: 0 <= j < |p| ==> t[..j] == p[..j] && t[j] == p[j];
      OverrideIdsConsecutive(k, p, atoms, n);
      assert t[..|t| - 1] == p;
      if exists j :: 0 <= j < |t| && Used(t[j], atoms) && OverrideId(k, t, atoms, j) == n {
        var j :| 0 <= j < |t| && Used(t[j], atoms) && OverrideId(k, t, atoms, j) == n;
        if j < |p| {
          assert Used(p[j], atoms) && OverrideId(k, p, atoms, j) == n;
        }
      }
      if k + 1 <= n <= k + UsedCount(t, atoms) {
        if n <= k + UsedCount(p, atoms) {
          var j :| 0 <= j < |p| && Used(p[j], atoms) && OverrideId(k, p, atoms, j) == n;
          assert Used(t[j], atoms) && OverrideId(k, t, atoms, j) == n;
        } else {
          assert Used(x, atoms) && OverrideId(k, t, atoms, |t| - 1) == n;
        }
      }
    }
  }

  lemma {:induction false} OverrideIdsIncrease(k: nat, t: seq<Specie>, atoms: seq<Atom>, j1: nat, j2: nat)
    requires j1 < j2 < |t|
    requires Used(t[j1], atoms)
    ensures OverrideId(k, t, atoms, j1) < OverrideId(k, t, atoms, j2)
  {
    UsedPrefixBound(t[..j2], atoms, j1);
    assert t[..j2][..j1] == t[..j1];
    assert t[..j2][j1] == t[j1];
  }

  /** An override that matches no atom takes no number and does not shift
      any atom's number: removing it from the list changes nothing. */
  lemma UnusedOverrideNoShift(ds: seq<string>, t: seq<Specie>, atoms: seq<Atom>, j: nat)
    requires j < |t|
    requires !Used(t[j], atoms)
    ensures UsedCount(t[..j] + t[j + 1..], atoms) == UsedCount(t, atoms)
    ensures Ids(atoms, ds, t[..j] + t[j + 1..]) == Ids(atoms, ds, t)
  {
    RemoveUnusedCount(t, atoms, j);
    forall k | 0 <= k < |atoms|
      ensures AtomId(atoms[k], ds, t[..j] + t[j + 1..], atoms) == AtomId(atoms[k], ds, t, atoms)
    {
      RemoveUnusedId(ds, t, atoms, j, atoms[k]);
    }
  }

  lemma {:induction false} RemoveUnusedCount(t: seq<Specie>, atoms: seq<Atom>, j: nat)
    requires j < |t|
    requires !Used(t[j], atoms)
    ensures UsedCount(t[..j] + t[j + 1..], atoms) == UsedCount(t, atoms)
    decreases |t|
  {
    var r := t[..j] + t[j + 1..];
    if j == |t| - 1 {
      assert r == t[..|t| - 1];
    } else {
      var p := t[..|t| - 1];
      var x := t[|t| - 1];
      assert p[j] == t[j];
      RemoveUnusedCount(p, atoms, j);
      var rp := p[..j] + p[j + 1..];
      assert r == rp + [x];
      assert r[..|rp|] == rp;
    }
  }

  /** What fixes `LastMatch`: a match at `r` (or `r == -1`) and none after. */
  lemma LastMatchUnique(t: seq<Specie>, a: Atom, r: int)
    requires -1 <= r < |t|
    requires r >= 0 ==> Matches(t[r], a)
    requires forall i :: r < i < |t| ==> !Matches(t[i], a)
    ensures LastMatch(t, a) == r
  {
  }

  lemma RemoveUnusedId(ds: seq<string>, t: seq<Specie>, atoms: seq<Atom>, j: nat, a: Atom)
    requires j < |t|
    requires !Used(t[j], atoms)
    requires !Matches(t[j], a)
    ensures AtomId(a, ds, t[..j] + t[j + 1..], atoms) == AtomId(a, ds, t, atoms)
  {
    var r := t[..j] + t[j + 1..];
    RemoveAt(t, j);
    var m := LastMatch(t, a);
    if m < j {
      LastMatchUnique(r, a, m);
      if m >= 0 {
        RemoveKeepsPrefix(t, j, m);
        assert OverrideId(|ds|, r, atoms, m) == OverrideId(|ds|, t, atoms, m);
      }
    } else {
      assert m > j;
      LastMatchUnique(r, a, m - 1);
      var q := t[..m];
      assert q[j] == t[j];
      RemoveInPrefix(t, j, m);
      RemoveUnusedCount(q, atoms, j);
      assert OverrideId(|ds|, r, atoms, m - 1) == OverrideId(|ds|, t, atoms, m);
    }
  }

  /** The elements after removing position `j`. */
  lemma RemoveAt<T>(t: seq<T>, j: nat)
    requires j < |t|
    ensures |t[..j] + t[j + 1..]| == |t| - 1
    ensures forall i :: 0 <= i < |t| - 1 ==> (t[..j] + t[j + 1..])[i] == if i < j then t[i] else t[i + 1]
  {
  }

  /** Removing position `j` keeps the prefix before it. */
  lemma RemoveKeepsPrefix<T>(t: seq<T>, j: nat, m: nat)
    requires m <= j < |t|
    ensures (t[..j] + t[j + 1..])[..m] == t[..m]
  {
  }

  /** Removing position `j` of a longer prefix. */
  lemma RemoveInPrefix<T>(t: seq<T>, j: nat, m: nat)
    requires j < m <= |t|
    ensures (t[..j] + t[j + 1..])[..m - 1] == t[..m][..j] + t[..m][j + 1..]
  {
  }

  /** A specie fits an atom: same symbol, and either a default or the
      atom's own tag. */
  predicate Fits(sp: Specie, a: Atom)
  {
    sp.symbol == a.symbol && (sp.tag.None? || sp.tag == Some(a.tag))
  }

  /** The species-list position (1-based) each atom is written with denotes
      a specie that fits it: this is what `_write_species` (lines 531-532,
      numbering by list position) and the coordinates block (line 448,
      writing the atom's number) need to agree on. */
  ghost predicate Consistent(res: Resolution, atoms: seq<Atom>)
  {
    && |res.numbers| == |atoms|
    && forall k :: 0 <= k < |atoms| ==> FitsAt(res, atoms, k)
  }

  /** Atom `k`'s number denotes a specie of the list that fits it. */
  ghost predicate FitsAt(res: Resolution, atoms: seq<Atom>, k: nat)
    requires k < |atoms|
  {
    k < |res.numbers| && 1 <= res.numbers[k] <= |res.species| && Fits(res.species[res.numbers[k] - 1], atoms[k])
  }

  // ---------------------------------------------------------------------
  // Finding: unused overrides keep their place in the returned list
  // ---------------------------------------------------------------------

  /** The overrides that take a number, in list order. */
  function UsedOverrides(t: seq<Specie>, atoms: seq<Atom>): (r: seq<Specie>)
    ensures |r| == UsedCount(t, atoms)
  {
    if |t| == 0 then []
    else
      var r := UsedOverrides(t[..|t| - 1], atoms);
      if Used(t[|t| - 1], atoms) then r + [t[|t| - 1]] else r
  }

  lemma {:induction false} UsedOverridesAt(t: seq<Specie>, atoms: seq<Atom>, j: nat)
    requires j < |t| && Used(t[j], atoms)
    ensures UsedCount(t[..j], atoms) < |UsedOverrides(t, atoms)|
    ensures UsedOverrides(t, atoms)[UsedCount(t[..j], atoms)] == t[j]
    decreases |t|
  {
    var p := t[..|t| - 1];
    if j < |t| - 1 {
      assert p[..j] == t[..j];
      assert p[j] == t[j];
      UsedOverridesAt(p, atoms, j);
    } else {
      assert t[..j] == p;
    }
  }

  /** The intended resolution: the defaults followed by the overrides that
      take a number, so that list position and atom number agree. */
  function Corrected(atoms: seq<Atom>, species: seq<Specie>, basis: Basis): Resolution
  {
    var defaults := Defaults(atoms, species, basis);
    var t := Tagged(species);
    Resolution(defaults + UsedOverrides(t, atoms), Ids(atoms, SymbolsOf(defaults), t))
  }

  /** Every default, given or synthesised, is untagged. */
  lemma DefaultsUntagged(atoms: seq<Atom>, species: seq<Specie>, basis: Basis, i: nat)
    requires i < |Defaults(atoms, species, basis)|
    ensures Defaults(atoms, species, basis)[i].tag.None?
  {
    var user := UserDefaults(species, atoms);
    if i < |user| {
      assert user[i] in user;
    }
  }

  /** A used override sits in the intended list at the number it takes. */
  lemma OverrideFits(defaults: seq<Specie>, t: seq<Specie>, atoms: seq<Atom>, j: nat, a: Atom)
    requires j < |t| && Matches(t[j], a) && Used(t[j], atoms)
    ensures var list, id := defaults + UsedOverrides(t, atoms), OverrideId(|defaults|, t, atoms, j);
      1 <= id <= |list| && Fits(list[id - 1], a)
  {
    UsedOverridesAt(t, atoms, j);
  }

  /** An atom's number denotes a specie of the defaults followed by the used
      overrides that fits it, when the defaults are untagged and the atom's
      symbol is found among them where no override matches. */
  lemma IdFits(defaults: seq<Specie>, t: seq<Specie>, atoms: seq<Atom>, k: nat)
    requires k < |atoms|
    requires forall i :: 0 <= i < |defaults| ==> defaults[i].tag.None?
    requires var id := AtomId(atoms[k], SymbolsOf(defaults), t, atoms);
      LastMatch(t, atoms[k]) < 0 ==> 1 <= id <= |defaults| && defaults[id - 1].symbol == atoms[k].symbol
    ensures FitsAt(Resolution(defaults + UsedOverrides(t, atoms), Ids(atoms, SymbolsOf(defaults), t)), atoms, k)
  {
    var j := LastMatch(t, atoms[k]);
    if j >= 0 {
      assert Used(t[j], atoms) by { assert Matches(t[j], atoms[k]); }
      OverrideFits(defaults, t, atoms, j, atoms[k]);
    }
  }

  /** Atom `k`'s number denotes a specie of the intended list that fits it. */
  lemma CorrectedFits(atoms: seq<Atom>, species: seq<Specie>, basis: Basis, k: nat)
    requires !DuplicateDefault(species, atoms) && k < |atoms|
    ensures FitsAt(Corrected(atoms, species, basis), atoms, k)
  {
    var defaults := Defaults(atoms, species, basis);
    forall i | 0 <= i < |defaults| ensures defaults[i].tag.None? {
      DefaultsUntagged(atoms, species, basis, i);
    }
    IdsInRange(atoms, species, basis, k);
    IdFits(defaults, Tagged(species), atoms, k);
  }

  /** The intended result, with its consistency and its numbers. */
  function CorrectedResolution(atoms: seq<Atom>, species: seq<Specie>, basis: Basis): (r: Result<Resolution, SpeciesError>)
    ensures r.Failure? <==> DuplicateDefault(species, atoms)
    ensures r.Success? ==> Consistent(r.value, atoms)
    ensures r.Success? ==> r.value.numbers == Resolved(atoms, species, basis).numbers
  {
    if DuplicateDefault(species, atoms) then Failure(DefaultCountMismatch)
    else
      var res := Corrected(atoms, species, basis);
      assert Consistent(res, atoms) by {
        forall k | 0 <= k < |atoms| ensures FitsAt(res, atoms, k) {
          CorrectedFits(atoms, species, basis, k);
        }
      }
      Success(res)
  }

  /** When every override matches some atom, the as-written result is consistent too. */
  lemma AllUsedIsConsistent(atoms: seq<Atom>, species: seq<Specie>, basis: Basis)
    requires !DuplicateDefault(species, atoms)
    requires forall x :: x in Tagged(species) ==> Used(x, atoms)
    ensures Consistent(Resolved(atoms, species, basis), atoms)
  {
    var t := Tagged(species);
    forall i | 0 <= i < |t| ensures Used(t[i], atoms) {
      assert t[i] in t;
    }
    AllUsed(t, atoms);
    var c := CorrectedResolution(atoms, species, basis);
    assert c.value.species == Resolved(atoms, species, basis).species;
  }

  lemma {:induction false} AllUsed(t: seq<Specie>, atoms: seq<Atom>)
    requires forall i :: 0 <= i < |t| ==> Used(t[i], atoms)
    ensures UsedOverrides(t, atoms) == t
  {
    if |t| > 0 {
      var p := t[..|t| - 1];
      assert forall i :: 0 <= i < |p| ==> p[i] == t[i];
      AllUsed(p, atoms);
      assert Used(t[|t| - 1], atoms);
      assert p + [t[|t| - 1]] == t;
    }
  }

  /** Two hydrogen atoms, tags 0 and 1; the species list holds an override
      for tag 2 (no atom) and then a ghost override for tag 1. */
  const ExampleBasis: Basis := BasisName("DZP")
  const ExampleAtoms: seq<Atom> := [Atom("H", 0), Atom("H", 1)]
  const ExampleSpecies: seq<Specie> :=
    [Specie("H", Some(2), ExampleBasis, None, false), Specie("H", Some(1), ExampleBasis, None, true)]

  lemma ExampleDefaults()
    ensures UserDefaults(ExampleSpecies, ExampleAtoms) == []
    ensures Defaults(ExampleAtoms, ExampleSpecies, ExampleBasis) == [DefaultSpecie("H", ExampleBasis)]
  {
    var species := ExampleSpecies;
    assert species[..1] == [species[0]];
    assert species[..1][..0] == [];
    assert UserDefaults(species[..1][..0], ExampleAtoms) == [];
    assert UserDefaults(species[..1], ExampleAtoms) == [];
    var s := Symbols(ExampleAtoms);
    assert s == ["H", "H"];
    assert s[..1] == ["H"];
    assert s[..1][..0] == [];
    assert Distinct(s[..1][..0]) == [];
    assert Distinct(s[..1]) == ["H"];
    assert Distinct(s) == ["H"];
    var h: seq<string> := ["H"];
    assert h[..0] == [];
    assert Without(h[..0], []) == [];
    assert Without(h, []) == ["H"];
    assert SymbolsOf([]) == [];
    assert SynthesisedSymbols(ExampleAtoms, species) == ["H"];
  }

  lemma ExampleTagged()
    ensures Tagged(ExampleSpecies) == ExampleSpecies
  {
    var species := ExampleSpecies;
    assert species[..1] == [species[0]];
    assert species[..1][..0] == [];
    assert Tagged(species[..1][..0]) == [];
    assert Tagged(species[..1]) == [species[0]];
    assert |species| == 2 && species[..|species| - 1] == species[..1] && species[1].tag.Some?;
    assert Tagged(species) == [species[0]] + [species[1]];
    assert [species[0]] + [species[1]] == species;
  }

  lemma ExampleNumbers()
    ensures Resolved(ExampleAtoms, ExampleSpecies, ExampleBasis).numbers == [1, 2]
  {
    ExampleDefaults();
    ExampleTagged();
    var atoms := ExampleAtoms;
    var species := ExampleSpecies;
    var ds := SymbolsOf(Defaults(atoms, species, ExampleBasis));
    assert ds == ["H"];
    assert !Used(species[0], atoms);
    assert Matches(species[1], atoms[1]);
    assert species[..1][..0] == [];
    assert UsedCount(species[..1], atoms) == 0;
    assert LastMatch(species[..1], atoms[0]) == -1;
    assert LastMatch(species, atoms[0]) == -1;
    assert LastMatch(species, atoms[1]) == 1;
    assert AtomId(atoms[0], ds, species, atoms) == 1;
    assert AtomId(atoms[1], ds, species, atoms) == 2;
  }

  /** The tag-1 atom is numbered 2, but position 2 of the returned list is
      the unused tag-2 override, so the atom would be written with the wrong
      specie (not the ghost one the user asked for). */
  lemma UnusedOverrideMisnumbers()
    ensures !DuplicateDefault(ExampleSpecies, ExampleAtoms)
    ensures Resolved(ExampleAtoms, ExampleSpecies, ExampleBasis).numbers == [1, 2]
    ensures Resolved(ExampleAtoms, ExampleSpecies, ExampleBasis).species[1] == ExampleSpecies[0]
    ensures !Consistent(Resolved(ExampleAtoms, ExampleSpecies, ExampleBasis), ExampleAtoms)
  {
    ExampleDefaults();
    ExampleTagged();
    ExampleNumbers();
    var res := Resolved(ExampleAtoms, ExampleSpecies, ExampleBasis);
    assert res.species == [DefaultSpecie("H", ExampleBasis)] + ExampleSpecies;
    assert !Fits(res.species[res.numbers[1] - 1], ExampleAtoms[1]);
    assert !FitsAt(res, ExampleAtoms, 1);
  }

  /** Two untagged hydrogen atoms and no species input: one synthesised
      default, and both atoms numbered 1. */
  lemma TwoUntaggedAtoms(basis: Basis)
    ensures var atoms := [Atom("H", 0), Atom("H", 0)];
      && !DuplicateDefault([], atoms)
      && Resolved(atoms, [], basis) == Resolution([DefaultSpecie("H", basis)], [1, 1])
  {
    var atoms := [Atom("H", 0), Atom("H", 0)];
    assert UserDefaults([], atoms) == [];
    HydrogenPairDefaults(atoms, [], basis);
    assert Tagged([]) == [];
    var ds := SymbolsOf([DefaultSpecie("H", basis)]);
    assert ds == ["H"];
    assert AtomId(atoms[0], ds, [], atoms) == 1;
    assert AtomId(atoms[1], ds, [], atoms) == 1;
  }

  /** An override list of one tagged specie holds no default. */
  lemma SingleOverride(atoms: seq<Atom>, species: seq<Specie>)
    requires |species| == 1 && species[0].tag.Some?
    ensures UserDefaults(species, atoms) == []
    ensures Tagged(species) == species
  {
    assert species[..0] == [];
    assert UserDefaults(species[..0], atoms) == [];
    assert Tagged(species[..0]) == [];
  }

  /** The defaults for two hydrogen atoms and a species list without a
      default specie: the one synthesised hydrogen default. */
  lemma HydrogenPairDefaults(atoms: seq<Atom>, species: seq<Specie>, basis: Basis)
    requires |atoms| == 2 && atoms[0].symbol == "H" && atoms[1].symbol == "H"
    requires UserDefaults(species, atoms) == []
    ensures SynthesisedSymbols(atoms, species) == ["H"]
    ensures Defaults(atoms, species, basis) == [DefaultSpecie("H", basis)]
    ensures !DuplicateDefault(species, atoms)
  {
    var s := Symbols(atoms);
    assert s == ["H", "H"];
    assert s[..1] == ["H"] && s[..1][..0] == [];
    assert Distinct(s[..1][..0]) == [];
    assert Distinct(s[..1]) == ["H"];
    assert Distinct(s) == ["H"];
    var h: seq<string> := ["H"];
    assert h[..0] == [];
    assert Without(h[..0], []) == [];
    assert Without(h, []) == ["H"];
    assert SymbolsOf([]) == [];
    assert SynthesisedSymbols(atoms, species) == ["H"];
  }

  /** Two hydrogen atoms, the second tagged 1, and an override for tag 1:
      the list is the synthesised default and the override, and the tagged
      atom is numbered 2, the other 1. */
  lemma OneTaggedOverride(basis: Basis, override: Specie)
    requires override == Specie("H", Some(1), basis, None, false)
    ensures var atoms := [Atom("H", 0), Atom("H", 1)];
      && !DuplicateDefault([override], atoms)
      && Resolved(atoms, [override], basis) == Resolution([DefaultSpecie("H", basis), override], [1, 2])
  {
    var atoms := [Atom("H", 0), Atom("H", 1)];
    var species := [override];
    SingleOverride(atoms, species);
    HydrogenPairDefaults(atoms, species, basis);
    var ds := SymbolsOf([DefaultSpecie("H", basis)]);
    assert ds == ["H"];
    assert Matches(override, atoms[1]) && !Matches(override, atoms[0]);
    assert LastMatch(species, atoms[0]) == -1;
    assert LastMatch(species, atoms[1]) == 0;
    assert UsedCount(species[..0], atoms) == 0;
    assert AtomId(atoms[0], ds, species, atoms) == 1;
    assert AtomId(atoms[1], ds, species, atoms) == 2;
  }
}
