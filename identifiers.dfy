/**
 * How the data scripts name things: the file-name slug of a circuit, the
 * three-letter code of a driver, and the lookup of the Spa-Francorchamps
 * circuit in circuits.csv.
 */
module Identifiers {
  import opened Wrappers
  import opened PyStrings
  import opened PyNumbers
  import opened LapTimes

  // ---------------------------------------------------------------------
  // Circuit slugs
  // ---------------------------------------------------------------------

  /** The text a slug is made from: `circuitRef` when it is a string, the circuit's name otherwise. */
  function SlugBase(circuitRef: Value, name: string): string {
    if circuitRef.Text? then circuitRef.s else name
  }

  /** One character of a stripped base after `lower()`, `replace(" ", "_")` and `replace("/", "_")`. */
  function SlugChar(c: char): char {
    var l := LowerChar(c);
    if l == ' ' then '_' else if l == '/' then '_' else l
  }

  /** `base.lower().replace(" ", "_").replace("/", "_")`. */
  function Mapped(t: string): (r: string)
    ensures |r| == |t| && forall i :: 0 <= i < |t| ==> r[i] == SlugChar(t[i])
  {
    ReplaceChar(ReplaceChar(Lower(t), ' ', '_'), '/', '_')
  }

  /**
   * `slug_from_circuit`: the base stripped and lower-cased, spaces and '/'
   * turned into '_', apostrophes removed; it holds none of ' ', '/', '\''
   * and no upper-case ASCII letter, so it is usable in a file name.
   */
  function Slug(circuitRef: Value, name: string): (slug: string)
    ensures ' ' !in slug && '/' !in slug && '\'' !in slug
    ensures forall i :: 0 <= i < |slug| ==> !IsUpperAscii(slug[i])
  {
    var mapped := Mapped(Strip(SlugBase(circuitRef, name)));
    MappedClean(Strip(SlugBase(circuitRef, name)));
    var slug := RemoveChar(mapped, '\'');
    assert forall i :: 0 <= i < |slug| ==> slug[i] in slug;
    slug
  }

  /** After `Mapped` no space, no '/' and no upper-case ASCII letter is left. */
  lemma MappedClean(t: string)
    ensures forall c :: c in Mapped(t) ==> c != ' ' && c != '/' && !IsUpperAscii(c)
  {
    forall c | c in Mapped(t) ensures c != ' ' && c != '/' && !IsUpperAscii(c) {
      var j :| 0 <= j < |t| && Mapped(t)[j] == c;
    }
  }

  /** `circuitRef` is preferred to the name whenever it is a string. */
  lemma SlugPrefersRef(circuitRef: string, name1: string, name2: string)
    ensures Slug(Text(circuitRef), name1) == Slug(Text(circuitRef), name2)
  {
  }

  /** A character `lower`, `replace` and `strip` leave alone, and that a slug may hold. */
  predicate PlainSlugChar(c: char) {
    !IsSpace(c) && !IsUpperAscii(c) && c != ' ' && c != '/' && c != '\''
  }

  predicate AllPlain(s: string) {
    forall i :: 0 <= i < |s| ==> PlainSlugChar(s[i])
  }

  /** Characters `SlugChar` fixes go through `Mapped` unchanged; plain ones are such. */
  lemma MappedPlain(t: string)
    requires forall i :: 0 <= i < |t| ==> SlugChar(t[i]) == t[i]
    ensures Mapped(t) == t
  {
  }

  /** A base that is already a slug, such as "spa" or "monza", is its own slug. */
  lemma SlugOfPlain(base: string, name: string)
    requires AllPlain(base)
    ensures Slug(Text(base), name) == base
  {
    if base != [] {
      assert !IsSpace(base[0]) && !IsSpace(base[|base| - 1]);
    }
    StripUnspaced(base);
    MappedPlain(base);
  }

  /** A stripped text that is not empty starts and ends with a non-space character. */
  lemma StripShape(s: string)
    ensures Strip(s) != [] ==> !IsSpace(Strip(s)[0]) && !IsSpace(Strip(s)[|Strip(s)| - 1])
  {
    var t := TrimStart(s);
    var r := TrimEnd(t);
    if r != [] {
      TrimEndShape(t);
      assert t[0] == r[0];
    }
  }

  /** Without an apostrophe in the base, slugging a slug changes nothing. */
  lemma SlugIdempotent(circuitRef: Value, name: string, other: string)
    requires '\'' !in SlugBase(circuitRef, name)
    ensures Slug(Text(Slug(circuitRef, name)), other) == Slug(circuitRef, name)
  {
    var base := SlugBase(circuitRef, name);
    var t := Strip(base);
    SlugIsMapped(circuitRef, name);
    StripShape(base);
    MappedStable(t);
    SlugOfText(Mapped(t), other);
  }

  /** Without an apostrophe in the base, the slug is the mapped stripped base. */
  lemma SlugIsMapped(circuitRef: Value, name: string)
    requires '\'' !in SlugBase(circuitRef, name)
    ensures Slug(circuitRef, name) == Mapped(Strip(SlugBase(circuitRef, name)))
  {
    var base := SlugBase(circuitRef, name);
    var t := Strip(base);
    assert '\'' !in t by {
      if '\'' in t { StripWithin(base, '\''); }
    }
    var mapped := Mapped(t);
    assert '\'' !in mapped by {
      forall i | 0 <= i < |mapped| ensures mapped[i] != '\'' { assert t[i] != '\''; }
    }
  }

  /** A mapped text with non-space ends and no apostrophe is its own slug. */
  lemma MappedStable(t: string)
    requires t != [] ==> !IsSpace(t[0]) && !IsSpace(t[|t| - 1])
    requires '\'' !in Mapped(t)
    ensures RemoveChar(Mapped(Strip(Mapped(t))), '\'') == Mapped(t)
  {
    var mapped := Mapped(t);
    if t != [] {
      SlugCharKeepsNonSpace(t[0]);
      SlugCharKeepsNonSpace(t[|t| - 1]);
    }
    StripUnspaced(mapped);
    forall i | 0 <= i < |mapped| ensures SlugChar(mapped[i]) == mapped[i] {
      SlugCharIdempotent(t[i]);
    }
    MappedPlain(mapped);
  }

  /** A character `SlugChar` produced is left as it is by a second `SlugChar`. */
  lemma SlugCharIdempotent(c: char)
    ensures SlugChar(SlugChar(c)) == SlugChar(c)
  {
  }

  /** `SlugChar` never turns a non-space character into whitespace. */
  lemma SlugCharKeepsNonSpace(c: char)
    requires !IsSpace(c)
    ensures !IsSpace(SlugChar(c))
  {
  }

  /**
   * The base's apostrophe is removed after stripping, so whitespace it
   * shielded at the end survives into the slug: `x\t'` slugs to `x\t`.
   */
  lemma SlugApostropheKeepsSpace(m: string, sp: char, name: string)
    requires m != [] && AllPlain(m) && IsSpace(sp) && sp != ' '
    ensures Slug(Text(m + [sp, '\'']), name) == m + [sp]
  {
    PlainFacts(m);
    SlugOfText(m + [sp, '\''], name);
    StripShielded(m, sp);
    MappedShielded(m, sp);
    RemoveShielded(m, sp);
  }

  /** Removing the apostrophe after `m + [sp]` gives back `m + [sp]`. */
  lemma RemoveShielded(m: string, sp: char)
    requires '\'' !in m && IsSpace(sp)
    ensures RemoveChar(m + [sp, '\''], '\'') == m + [sp]
  {
    assert m + [sp, '\''] == (m + [sp]) + ['\''];
    RemoveLast(m + [sp], '\'');
  }

  lemma MappedShielded(m: string, sp: char)
    requires AllPlain(m) && IsSpace(sp) && sp != ' '
    ensures Mapped(m + [sp, '\'']) == m + [sp, '\'']
  {
    var x := m + [sp, '\''];
    forall i | 0 <= i < |x| ensures SlugChar(x[i]) == x[i] {
      if i < |m| { assert x[i] == m[i]; }
    }
    MappedPlain(x);
  }

  /** An apostrophe at the end shields the whitespace before it from `strip`. */
  lemma StripShielded(m: string, sp: char)
    requires m != [] && !IsSpace(m[0])
    ensures Strip(m + [sp, '\'']) == m + [sp, '\'']
  {
    var a := m + [sp];
    TrimStartKeeps(a);
    assert m + [sp, '\''] == a + ['\''] + [];
    StripAroundNonSpace(a, '\'', []);
  }

  /** ... and slugging that slug again strips the whitespace: `x\t` slugs to `x`. */
  lemma SlugStripsTrailingSpace(m: string, sp: char, name: string)
    requires m != [] && AllPlain(m) && IsSpace(sp)
    ensures Slug(Text(m + [sp]), name) == m
  {
    PlainFacts(m);
    StripTrailingSpace(m, sp);
    SlugOfText(m + [sp], name);
    MappedPlain(m);
  }

  /** What a text of plain slug characters is free of. */
  lemma PlainFacts(m: string)
    requires AllPlain(m)
    ensures '\'' !in m
    ensures forall i :: 0 <= i < |m| ==> SlugChar(m[i]) == m[i]
    ensures m != [] ==> !IsSpace(m[0]) && !IsSpace(m[|m| - 1])
  {
    forall i | 0 <= i < |m| ensures m[i] != '\'' && SlugChar(m[i]) == m[i] {
      assert PlainSlugChar(m[i]);
    }
  }

  /** One whitespace character after a text with non-space ends is all `strip` removes. */
  lemma StripTrailingSpace(m: string, sp: char)
    requires m != [] && !IsSpace(m[0]) && !IsSpace(m[|m| - 1]) && IsSpace(sp)
    ensures Strip(m + [sp]) == m
  {
    TrimStartKeeps(m + [sp]);
    TrimEndSpaces(m, [sp]);
    TrimEndKeeps(m);
  }

  /** `lstrip` keeps a text that starts with a non-space character. */
  lemma TrimStartKeeps(a: string)
    requires a != [] && !IsSpace(a[0])
    ensures TrimStart(a) == a
  {
    assert a == [] + [a[0]] + a[1..];
    TrimStartAround([], a[0], a[1..]);
  }

  /** `rstrip` keeps a text that ends with a non-space character. */
  lemma TrimEndKeeps(a: string)
    requires a != [] && !IsSpace(a[|a| - 1])
    ensures TrimEnd(a) == a
  {
    assert a == a[..|a| - 1] + [a[|a| - 1]] + [];
    TrimEndAround(a[..|a| - 1], a[|a| - 1], []);
  }

  lemma SlugOfText(b: string, name: string)
    ensures Slug(Text(b), name) == RemoveChar(Mapped(Strip(b)), '\'')
  {
  }

  /** Removing a character from a text that has it only at the end. */
  lemma {:induction false} RemoveLast(a: string, c: char)
    requires c !in a
    ensures RemoveChar(a + [c], c) == a
  {
    if a != [] {
      assert (a + [c])[1..] == a[1..] + [c];
      RemoveLast(a[1..], c);
      assert a == [a[0]] + a[1..];
    }
  }

  // ---------------------------------------------------------------------
  // Driver codes
  // ---------------------------------------------------------------------

  /** `surname[:3]`. */
  function Prefix3(s: string): (p: string)
    ensures |p| <= 3 && p <= s
    ensures |s| >= 3 ==> |p| == 3
  {
    if |s| >= 3 then s[..3] else s
  }

  /**
   * `normalize_driver_code`: the driver's official code, stripped and
   * upper-cased, when it is a non-blank string; else the first three letters
   * of the surname, upper-cased, when that is a non-empty string; else "DRV".
   * The result is never empty and holds no lower-case ASCII letter.
   */
  function NormalizeDriverCode(code: Value, surname: Value): (r: string)
    ensures r != []
    ensures forall i :: 0 <= i < |r| ==> !IsLowerAscii(r[i])
    ensures code.Text? && Strip(code.s) != [] ==> |r| == |Strip(code.s)| && r == Upper(Strip(code.s))
    ensures !(code.Text? && Strip(code.s) != []) && surname.Text? && surname.s != [] ==>
      |r| == (if |surname.s| < 3 then |surname.s| else 3) && r == Upper(surname.s[..|r|])
    ensures !(code.Text? && Strip(code.s) != []) && !(surname.Text? && surname.s != []) ==> r == "DRV"
  {
    if code.Text? && Strip(code.s) != [] then Upper(Strip(code.s))
    else if surname.Text? && surname.s != [] then Upper(Prefix3(surname.s))
    else "DRV"
  }

  /** A code of whitespace only, such as U+00A0 followed by U+001F, is blank: the surname decides. */
  lemma BlankCodeUsesSurname(surname: string)
    requires surname != []
    ensures NormalizeDriverCode(Text("\U{00A0}\U{001F}"), Text(surname)) == Upper(Prefix3(surname))
  {
    assert Strip("\U{00A0}\U{001F}") == [] by {
      TrimAllSpace("\U{00A0}\U{001F}");
    }
  }

  /** Two codes that differ only in case and surrounding whitespace name the same driver. */
  lemma NormalizeDriverCodeIgnoresSpaceAndCase(a: string, b: string, s1: Value, s2: Value)
    requires Strip(a) != [] && Upper(Strip(a)) == Upper(Strip(b))
    ensures NormalizeDriverCode(Text(a), s1) == NormalizeDriverCode(Text(b), s2)
  {
    assert |Strip(b)| == |Strip(a)|;
  }

  /** `UpperChar` never turns a non-space character into whitespace. */
  lemma UpperKeepsNonSpace(c: char)
    requires !IsSpace(c)
    ensures !IsSpace(UpperChar(c))
  {
  }

  /** A code produced from a driver's `code` field normalizes to itself. */
  lemma NormalizeDriverCodeIdempotent(code: string, surname: Value, other: Value)
    requires Strip(code) != []
    ensures NormalizeDriverCode(Text(NormalizeDriverCode(Text(code), surname)), other)
      == NormalizeDriverCode(Text(code), surname)
  {
    var t := Strip(code);
    var r := Upper(t);
    StripShape(code);
    UpperKeepsNonSpace(t[0]);
    UpperKeepsNonSpace(t[|t| - 1]);
    StripUnspaced(r);
    assert Upper(r) == r;
  }

  // ---------------------------------------------------------------------
  // Finding Spa-Francorchamps
  // ---------------------------------------------------------------------

  /** A row of circuits.csv. */
  datatype Circuit = Circuit(circuitId: int, circuitRef: Value, name: Value)

  /**
   * `col.astype(str).str.contains(pat, case=False, na=False)` on one cell.
   * A missing cell reads "nan" and a number reads as a numeral, and neither
   * holds the patterns used here, so only text cells can match.
   */
  predicate CellContains(v: Value, pat: string) {
    v.Text? && ContainsIgnoreCase(v.s, pat)
  }

  /**
   * `get_spa_circuit_id`: the id of the first circuit whose name contains
   * "Spa", ignoring case; ValueError when there is none.
   */
  function SpaCircuitId(cs: seq<Circuit>): (r: Result<int, string>)
    ensures r.Err? <==> forall i :: 0 <= i < |cs| ==> !CellContains(cs[i].name, "Spa")
    ensures r.Ok? ==> exists i :: (0 <= i < |cs| && cs[i].circuitId == r.value
      && CellContains(cs[i].name, "Spa")
      && forall j :: 0 <= j < i ==> !CellContains(cs[j].name, "Spa"))
  {
    var i := FirstSpa(cs, 0);
    if i == |cs| then Err("Spa circuit not found in circuits.csv. Check dataset content.")
    else Ok(cs[i].circuitId)
  }

  /** The index of the first circuit from `k` on whose name contains "Spa"; `|cs|` when there is none. */
  function FirstSpa(cs: seq<Circuit>, k: nat): (i: nat)
    requires k <= |cs| && forall j :: 0 <= j < k ==> !CellContains(cs[j].name, "Spa")
    ensures k <= i <= |cs|
    ensures forall j :: 0 <= j < i ==> !CellContains(cs[j].name, "Spa")
    ensures i < |cs| ==> CellContains(cs[i].name, "Spa")
    decreases |cs| - k
  {
    if k == |cs| || CellContains(cs[k].name, "Spa") then k else FirstSpa(cs, k + 1)
  }

  /** The circuit passes generate_driver_laps' Spa mask, given which of the two columns circuits.csv has. */
  predicate SpaLike(columns: seq<string>, c: Circuit) {
    ("name" in columns && CellContains(c.name, "spa"))
      || ("circuitRef" in columns && CellContains(c.circuitRef, "spa"))
  }

  /** Lower-casing removes the one difference between the two Spa patterns. */
  lemma SpaPatternsAgree(s: string)
    ensures ContainsIgnoreCase(s, "Spa") == ContainsIgnoreCase(s, "spa")
  {
    assert Lower("Spa") == "spa";
    assert Lower("spa") == "spa";
  }

  /**
   * generate_driver_laps' lookup: a mask that starts all false and is or-ed
   * with the name test and then with the circuitRef test for each column the
   * table has; the first circuit the mask selects is Spa, and RuntimeError
   * is raised when it selects none. With a name column and no circuitRef
   * column it finds the same circuit as `SpaCircuitId`.
   */
  method SpaCandidateId(columns: seq<string>, cs: seq<Circuit>) returns (r: Result<int, string>)
    ensures r.Err? <==> forall i :: 0 <= i < |cs| ==> !SpaLike(columns, cs[i])
    ensures r.Ok? ==> exists i :: (0 <= i < |cs| && cs[i].circuitId == r.value
      && SpaLike(columns, cs[i])
      && forall j :: 0 <= j < i ==> !SpaLike(columns, cs[j]))
    ensures "name" in columns && "circuitRef" !in columns ==>
      r.Ok? == SpaCircuitId(cs).Ok? && (r.Ok? ==> r.value == SpaCircuitId(cs).value)
  {
    var mask: seq<bool> := seq(|cs|, i => false);
    if "name" in columns {
      mask := seq(|cs|, i requires 0 <= i < |cs| => mask[i] || CellContains(cs[i].name, "spa"));
    }
    if "circuitRef" in columns {
      mask := seq(|cs|, i requires 0 <= i < |cs| => mask[i] || CellContains(cs[i].circuitRef, "spa"));
    }
    assert forall i :: 0 <= i < |cs| ==> mask[i] == SpaLike(columns, cs[i]);
    var k := 0;
    while k < |cs| && !mask[k]
      invariant 0 <= k <= |cs|
      invariant forall j :: 0 <= j < k ==> !SpaLike(columns, cs[j])
    {
      k := k + 1;
    }
    if k == |cs| {
      r := Err("no circuit containing 'Spa' in circuits.csv");
    } else {
      r := Ok(cs[k].circuitId);
    }
    if "name" in columns && "circuitRef" !in columns {
      forall i | 0 <= i < |cs| ensures SpaLike(columns, cs[i]) == CellContains(cs[i].name, "Spa") {
        if cs[i].name.Text? { SpaPatternsAgree(cs[i].name.s); }
      }
      var s := SpaCircuitId(cs);
      if s.Ok? && r.Ok? {
        var i :| 0 <= i < |cs| && cs[i].circuitId == s.value && CellContains(cs[i].name, "Spa")
          && forall j :: 0 <= j < i ==> !CellContains(cs[j].name, "Spa");
        assert i == k;
      }
    }
  }
}
