/** The diagnosis-block mapping of icu_features/icd_codes.py: ICD-9 and
    ICD-10 codes are mapped to ICD-10-CM blocks through an external lookup,
    each row's blocks are de-duplicated, stripped of misses and sorted, and
    the ICD-10-derived list is followed by the ICD-9-derived one. */
module IcdCodes {
  import opened Wrappers
  import Strings

  /** The code systems the lookup translates between. */
  datatype CodeSystem = Icd9 | Icd10 | Block

  /** The external lookup `mapper.map(code, source, target)`: a code (possibly
      null) to the translated code, or `None` on a miss. */
  type Mapper = (Option<string>, CodeSystem, CodeSystem) -> Option<string>

  /** Python's `value or ""` on an optional string. */
  function OrEmpty(o: Option<string>): (s: string)
    ensures o.Some? ==> s == o.value
    ensures o.None? ==> s == ""
  {
    o.GetOr("")
  }

  /** `icd10_blocks(x)` */
  function Icd10Block(m: Mapper, x: Option<string>): (b: string)
    ensures m(x, Icd10, Block).Some? ==> b == m(x, Icd10, Block).value
    ensures m(x, Icd10, Block).None? ==> b == ""
  {
    OrEmpty(m(x, Icd10, Block))
  }

  /** `x.replace(".", "")` */
  function RemoveDots(s: string): (r: string)
    ensures '.' !in r
    ensures forall c :: c != '.' ==> multiset(r)[c] == multiset(s)[c]
    ensures '.' !in s ==> r == s
  {
    if |s| == 0 then ""
    else
      assert s == [s[0]] + s[1..];
      if s[0] == '.' then RemoveDots(s[1..]) else [s[0]] + RemoveDots(s[1..])
  }

  /** Removing dots works piece by piece: the characters that stay keep
      their order. */
  lemma {:induction false} RemoveDotsAppend(a: string, b: string)
    ensures RemoveDots(a + b) == RemoveDots(a) + RemoveDots(b)
    decreases |a|
  {
    if |a| > 0 {
      assert (a + b)[0] == a[0];
      assert (a + b)[1..] == a[1..] + b;
      RemoveDotsAppend(a[1..], b);
    } else {
      assert a + b == b;
    }
  }

  /** A single character is dropped if it is a dot and kept otherwise. */
  lemma RemoveDotsChar(c: char)
    ensures RemoveDots([c]) == if c == '.' then "" else [c]
  {
    assert [c][1..] == "";
  }

  /** The ICD-10 code `icd9_blocks` settles on: the first lookup, or, when it
      misses on a non-null code, the lookup of the code without its dots. */
  function Icd9ToIcd10(m: Mapper, x: Option<string>): (c: Option<string>)
    ensures m(x, Icd9, Icd10).Some? ==> c == m(x, Icd9, Icd10)
    ensures x.None? ==> c == m(x, Icd9, Icd10)
    ensures x.Some? && m(x, Icd9, Icd10).None? ==> c == m(Some(RemoveDots(x.value)), Icd9, Icd10)
  {
    var first := m(x, Icd9, Icd10);
    if x.Some? && first.None? then m(Some(RemoveDots(x.value)), Icd9, Icd10) else first
  }

  /** `icd9_blocks(x)` */
  function Icd9Block(m: Mapper, x: Option<string>): (b: string)
    ensures Icd9ToIcd10(m, x).None? ==> b == ""
    ensures Icd9ToIcd10(m, x).Some? ==> b == Icd10Block(m, Icd9ToIcd10(m, x))
  {
    match Icd9ToIcd10(m, x)
    case None => ""
    case Some(code) => OrEmpty(m(Some(code), Icd10, Block))
  }

  /** When the first ICD-9 lookup succeeds, the dot-stripped retry is never
      consulted: two lookups that agree on the first translation and on the
      block of its result give the same block, whatever they do elsewhere. */
  lemma Icd9RetryOnlyOnMiss(m1: Mapper, m2: Mapper, x: Option<string>)
    requires m1(x, Icd9, Icd10).Some?
    requires m2(x, Icd9, Icd10) == m1(x, Icd9, Icd10)
    requires m2(m1(x, Icd9, Icd10), Icd10, Block) == m1(m1(x, Icd9, Icd10), Icd10, Block)
    ensures Icd9Block(m1, x) == Icd9Block(m2, x)
  {
  }

  /** `icd9_blocks` is empty exactly when both ICD-9 lookups miss or the block lookup misses. */
  lemma Icd9BlockEmpty(m: Mapper, x: Option<string>)
    requires forall c :: m(c, Icd10, Block) != Some("")
    ensures Icd9Block(m, x) == "" <==>
              Icd9ToIcd10(m, x).None? || m(Icd9ToIcd10(m, x), Icd10, Block).None?
  {
  }

  /** The dotted ICD-9 code `410.0` is retried as `4100`. */
  lemma DottedCodeRetried(m: Mapper)
    requires m(Some("410.0"), Icd9, Icd10).None?
    ensures Icd9ToIcd10(m, Some("410.0")) == m(Some("4100"), Icd9, Icd10)
  {
    assert RemoveDots("410.0") == "4100" by {
      assert "410.0"[1..] == "10.0";
      assert "10.0"[1..] == "0.0";
      assert "0.0"[1..] == ".0";
      assert ".0"[1..] == "0";
      assert "0"[1..] == "";
    }
  }

  // ---------------------------------------------------------------------
  // Per-row block lists
  // ---------------------------------------------------------------------

  /** Which column a code comes from. */
  datatype Origin = FromIcd10 | FromIcd9

  function BlockOf(m: Mapper, origin: Origin, x: Option<string>): string {
    match origin
    case FromIcd10 => Icd10Block(m, x)
    case FromIcd9 => Icd9Block(m, x)
  }

  /** The block of every code, in code order. */
  function Blocks(m: Mapper, origin: Origin, codes: seq<Option<string>>): (r: seq<string>)
    ensures |r| == |codes|
    ensures forall i :: 0 <= i < |codes| ==> r[i] == BlockOf(m, origin, codes[i])
  {
    if |codes| == 0 then [] else [BlockOf(m, origin, codes[0])] + Blocks(m, origin, codes[1..])
  }

  /** The non-empty entries, in order. */
  function DropEmpty(s: seq<string>): (r: seq<string>)
    ensures "" !in r
    ensures forall z :: z in r <==> z in s && z != ""
  {
    if |s| == 0 then []
    else if s[0] == "" then DropEmpty(s[1..])
    else [s[0]] + DropEmpty(s[1..])
  }

  /** A block that some code of the row maps to. */
  ghost predicate IsImage(m: Mapper, origin: Origin, codes: seq<Option<string>>, z: string) {
    exists i :: 0 <= i < |codes| && BlockOf(m, origin, codes[i]) == z
  }

  /** `sorted(z for z in {f(x) for x in s} if z != "")` for one row. */
  function BlockList(m: Mapper, origin: Origin, codes: seq<Option<string>>): (r: seq<string>)
    ensures Strings.StrictlySorted(r)
    ensures "" !in r
    ensures forall z :: z in r <==> z != "" && IsImage(m, origin, codes, z)
  {
    var blocks := Blocks(m, origin, codes);
    var r := Strings.SortedSet(DropEmpty(blocks));
    assert forall z :: z in r <==> z in Strings.Elems(r);
    assert forall z :: z in blocks <==> IsImage(m, origin, codes, z) by {
      forall z ensures z in blocks <==> IsImage(m, origin, codes, z) {
        if z in blocks {
          var i :| 0 <= i < |blocks| && blocks[i] == z;
          assert BlockOf(m, origin, codes[i]) == z;
        }
        if IsImage(m, origin, codes, z) {
          var i :| 0 <= i < |codes| && BlockOf(m, origin, codes[i]) == z;
          assert blocks[i] == z;
        }
      }
    }
    r
  }

  /** No block appears twice in a row's list. */
  lemma BlockListDistinct(m: Mapper, origin: Origin, codes: seq<Option<string>>, i: int, j: int)
    requires 0 <= i < j < |BlockList(m, origin, codes)|
    ensures BlockList(m, origin, codes)[i] != BlockList(m, origin, codes)[j]
  {
    Strings.StrictlySortedDistinct(BlockList(m, origin, codes), i, j);
  }

  /** The block list is the one sorted listing of the row's non-empty blocks:
      any strictly sorted list with the same elements is that list. */
  lemma BlockListIsSortedImage(m: Mapper, origin: Origin, codes: seq<Option<string>>, s: seq<string>)
    requires Strings.StrictlySorted(s)
    requires forall z :: z in s <==> z != "" && IsImage(m, origin, codes, z)
    ensures s == BlockList(m, origin, codes)
  {
    var r := BlockList(m, origin, codes);
    assert Strings.Elems(s) == Strings.Elems(r);
    Strings.SortedListingUnique(s, r);
  }

  // ---------------------------------------------------------------------
  // Row normalisation and the combined column
  // ---------------------------------------------------------------------

  /** eICU stores a row's ICD-9 codes as one string joined with `", "`: split
      it, and read a null string as no codes. */
  function SplitDiagnoses(text: Option<string>): (codes: seq<Option<string>>)
    ensures text.None? ==> codes == []
    ensures text.Some? ==> |codes| >= 1 && forall i :: 0 <= i < |codes| ==> codes[i].Some?
    ensures text.Some? ==>
              var parts := seq(|codes|, i requires 0 <= i < |codes| => codes[i].value);
              Strings.Join(parts) == text.value
              && forall i :: 0 <= i < |parts| ==> !Strings.HasSeparator(parts[i])
  {
    match text
    case None => []
    case Some(s) =>
      var parts := Strings.Split(s);
      var codes := seq(|parts|, i requires 0 <= i < |parts| => Some(parts[i]));
      assert seq(|codes|, i requires 0 <= i < |codes| => codes[i].value) == parts;
      codes
  }

  /** `fill_null([])` on a list of codes. */
  function FillNull(codes: Option<seq<Option<string>>>): (r: seq<Option<string>>)
    ensures codes.None? ==> r == []
    ensures codes.Some? ==> r == codes.value
  {
    codes.GetOr([])
  }

  /** A row's ICD-9 diagnosis column: a list of codes, or, for eICU, one
      comma-joined string. */
  datatype Icd9Column = CodeList(codes: Option<seq<Option<string>>>) | CommaJoined(text: Option<string>)

  /** The columns of one row of the static table that the mapping reads. */
  datatype StaRow = StaRow(icd10Diagnosis: Option<seq<Option<string>>>, icd9Diagnosis: Icd9Column)

  function Icd9Codes(column: Icd9Column): seq<Option<string>> {
    match column
    case CodeList(codes) => FillNull(codes)
    case CommaJoined(text) => SplitDiagnoses(text)
  }

  /** `pl.concat_list("icd10_blocks", "icd9_blocks")` for one row: the two
      lists one after the other, not merged, re-sorted or de-duplicated. */
  function CombinedBlocks(m: Mapper, icd10Codes: seq<Option<string>>, icd9Codes: seq<Option<string>>): (r: seq<string>)
    ensures |r| == |BlockList(m, FromIcd10, icd10Codes)| + |BlockList(m, FromIcd9, icd9Codes)|
    ensures r[..|BlockList(m, FromIcd10, icd10Codes)|] == BlockList(m, FromIcd10, icd10Codes)
    ensures r[|BlockList(m, FromIcd10, icd10Codes)|..] == BlockList(m, FromIcd9, icd9Codes)
    ensures forall z :: z in r <==> z != "" && (IsImage(m, FromIcd10, icd10Codes, z) || IsImage(m, FromIcd9, icd9Codes, z))
  {
    var a := BlockList(m, FromIcd10, icd10Codes);
    var b := BlockList(m, FromIcd9, icd9Codes);
    assert forall z :: z in a + b <==> z in a || z in b;
    a + b
  }

  /** The new `icd10_blocks` value of one row. */
  function MapRow(m: Mapper, row: StaRow): (blocks: seq<string>)
    ensures row.icd10Diagnosis.None? && row.icd9Diagnosis == CodeList(None) ==> blocks == []
    ensures row.icd10Diagnosis.None? && row.icd9Diagnosis == CommaJoined(None) ==> blocks == []
    ensures "" !in blocks
  {
    CombinedBlocks(m, FillNull(row.icd10Diagnosis), Icd9Codes(row.icd9Diagnosis))
  }

  /** A lookup that sends every code to the ICD-10 code `I10` and every
      ICD-10 code to the block `I10-I1A`. */
  function OneBlockMapper(x: Option<string>, source: CodeSystem, target: CodeSystem): Option<string> {
    if target == Block then Some("I10-I1A") else Some("I10")
  }

  /** The two halves are not de-duplicated against each other: a block reached
      from both an ICD-10 and an ICD-9 code appears twice. */
  lemma CombinedKeepsCrossDuplicates()
    ensures CombinedBlocks(OneBlockMapper, [Some("I10")], [Some("401.9")]) == ["I10-I1A", "I10-I1A"]
  {
    var m: Mapper := OneBlockMapper;
    assert BlockList(m, FromIcd10, [Some("I10")]) == ["I10-I1A"] by {
      BlockListIsSortedImage(m, FromIcd10, [Some("I10")], ["I10-I1A"]);
    }
    assert BlockList(m, FromIcd9, [Some("401.9")]) == ["I10-I1A"] by {
      BlockListIsSortedImage(m, FromIcd9, [Some("401.9")], ["I10-I1A"]);
    }
  }
}
