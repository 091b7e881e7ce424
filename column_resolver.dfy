/**
 * The column resolver of the hierarchy builder: header normalisation and the
 * prioritised lookup of a value among a row's headers.
 */
module ColumnResolver {
  import opened JsStrings
  import opened JsValues

  /** A spreadsheet row: each header with its cell, in the order the reader enumerates them. */
  type Row = seq<(string, Cell)>

  predicate IsUpperAscii(c: char) {
    'A' <= c <= 'Z'
  }

  /** The characters the header normalisation removes: white space, `.`, `_` and `-`. */
  predicate IsSeparator(c: char) {
    IsJsSpace(c) || c == '.' || c == '_' || c == '-'
  }

  function LowerAscii(c: char): (r: char)
    ensures !IsUpperAscii(r)
    ensures IsSeparator(r) <==> IsSeparator(c)
  {
    if IsUpperAscii(c) then ((c as int) + 32) as char else c
  }

  /** `toLowerCase()`, on the ASCII letters. */
  function ToLowerCase(s: string): (r: string)
    ensures |r| == |s| && forall i :: 0 <= i < |s| ==> r[i] == LowerAscii(s[i])
  {
    if s == [] then [] else [LowerAscii(s[0])] + ToLowerCase(s[1..])
  }

  /** `replace(/[\s._-]/g, "")`: the characters of `s` that are not separators, in order. */
  function RemoveSeparators(s: string): (r: string)
    ensures forall i :: 0 <= i < |r| ==> !IsSeparator(r[i]) && r[i] in s
  {
    if s == [] then []
    else (if IsSeparator(s[0]) then [] else [s[0]]) + RemoveSeparators(s[1..])
  }

  lemma {:induction false} RemoveSeparatorsOfClean(s: string)
    requires forall i :: 0 <= i < |s| ==> !IsSeparator(s[i])
    ensures RemoveSeparators(s) == s
  {
    if s != [] {
      RemoveSeparatorsOfClean(s[1..]);
      assert [s[0]] + s[1..] == s;
    }
  }

  /**
   * `normalizeKey`: lower-case, then drop white space, dots, underscores and
   * hyphens. The source trims the result as well; `NormalizeKeyTrimmed` shows
   * that trim has nothing left to remove, so it is not repeated here.
   */
  function NormalizeKey(key: string): (r: string)
    ensures forall i :: 0 <= i < |r| ==> !IsUpperAscii(r[i]) && !IsSeparator(r[i])
  {
    var lower := ToLowerCase(key);
    assert forall c :: c in lower ==> !IsUpperAscii(c);
    RemoveSeparators(lower)
  }

  /** The trailing `trim()` of `normalizeKey` is the identity on what precedes it. */
  lemma NormalizeKeyTrimmed(key: string)
    ensures Trim(RemoveSeparators(ToLowerCase(key))) == NormalizeKey(key)
  {
    TrimWithoutSpace(NormalizeKey(key));
  }

  /** Normalising a normalised header changes nothing. */
  lemma NormalizeKeyIdempotent(key: string)
    ensures NormalizeKey(NormalizeKey(key)) == NormalizeKey(key)
  {
    var r := NormalizeKey(key);
    assert ToLowerCase(r) == r;
    RemoveSeparatorsOfClean(r);
  }

  /** The dictionary `normalizedRow`: each header's normalised form mapped to its cell, in row order. */
  function NormalizedRow(row: Row): (r: map<string, Cell>)
  {
    if row == [] then map[]
    else NormalizedRow(row[..|row| - 1])[NormalizeKey(row[|row| - 1].0) := row[|row| - 1].1]
  }

  /** A normalised header is in `normalizedRow` exactly when some header of the row normalises to it. */
  lemma {:induction false} NormalizedRowDomain(row: Row, nk: string)
    ensures nk in NormalizedRow(row) <==> exists i :: 0 <= i < |row| && NormalizeKey(row[i].0) == nk
  {
    if row != [] {
      var last := |row| - 1;
      var init := row[..last];
      NormalizedRowDomain(init, nk);
      if nk in NormalizedRow(row) && NormalizeKey(row[last].0) != nk {
        var i :| 0 <= i < |init| && NormalizeKey(init[i].0) == nk;
        assert init[i] == row[i];
      }
      if exists i :: 0 <= i < |row| && NormalizeKey(row[i].0) == nk {
        var i :| 0 <= i < |row| && NormalizeKey(row[i].0) == nk;
        if i < last {
          assert init[i] == row[i];
        }
      }
    }
  }

  /** Extending the row by one header assigns that header's entry. */
  lemma NormalizedRowSnoc(row: Row, i: nat)
    requires i < |row|
    ensures NormalizedRow(row[..i + 1]) == NormalizedRow(row[..i])[NormalizeKey(row[i].0) := row[i].1]
  {
    assert row[..i + 1][..i] == row[..i];
  }

  /**
   * The entry of a normalised header holds the cell of the LAST header that
   * normalises to it: a later header overwrites an earlier one.
   */
  lemma {:induction false} NormalizedRowLastWins(row: Row, i: nat)
    requires i < |row|
    requires forall j :: i < j < |row| ==> NormalizeKey(row[j].0) != NormalizeKey(row[i].0)
    ensures NormalizeKey(row[i].0) in NormalizedRow(row)
    ensures NormalizedRow(row)[NormalizeKey(row[i].0)] == row[i].1
  {
    if i < |row| - 1 {
      var init := row[..|row| - 1];
      assert init[i] == row[i];
      NormalizedRowLastWins(init, i);
    }
  }

  /** `normalizedRow[normalizeKey(c)]` for a candidate header `c`, `undefined` when absent. */
  function Lookup(nrow: map<string, Cell>, c: string): (r: Cell) {
    var nk := NormalizeKey(c);
    if nk in nrow then nrow[nk] else Undef
  }

  /**
   * The candidate loop of `getValueByNormalizedKey`: the value of the first
   * candidate whose normalised form holds a present value, or `null`.
   */
  function FirstPresent(nrow: map<string, Cell>, cands: seq<string>): (r: Cell)
    ensures r == Null || Present(r)
  {
    if cands == [] then Null
    else if Present(Lookup(nrow, cands[0])) then Lookup(nrow, cands[0])
    else FirstPresent(nrow, cands[1..])
  }

  /** The lookup yields the value of candidate `j` when no earlier candidate holds a present value. */
  lemma {:induction false} FirstPresentFinds(nrow: map<string, Cell>, cands: seq<string>, j: nat)
    requires j < |cands| && Present(Lookup(nrow, cands[j]))
    requires forall k :: 0 <= k < j ==> !Present(Lookup(nrow, cands[k]))
    ensures FirstPresent(nrow, cands) == Lookup(nrow, cands[j])
  {
    if j > 0 {
      assert !Present(Lookup(nrow, cands[0]));
      assert cands[1..][j - 1] == cands[j];
      FirstPresentFinds(nrow, cands[1..], j - 1);
    }
  }

  /** The lookup yields `null` exactly when no candidate holds a present value. */
  lemma {:induction false} FirstPresentNull(nrow: map<string, Cell>, cands: seq<string>)
    ensures FirstPresent(nrow, cands) == Null <==> forall k :: 0 <= k < |cands| ==> !Present(Lookup(nrow, cands[k]))
  {
    if cands != [] {
      FirstPresentNull(nrow, cands[1..]);
      assert forall k :: 1 <= k < |cands| ==> cands[k] == cands[1..][k - 1];
    }
  }

  /** `getValueByNormalizedKey(row, cands)` as a value: never `undefined` and never `""`. */
  function Resolve(row: Row, cands: seq<string>): (r: Cell)
    ensures r == Null || Present(r)
  {
    FirstPresent(NormalizedRow(row), cands)
  }

  /** `getValueByNormalizedKey`: builds `normalizedRow`, then scans the candidates with an early return. */
  method GetValueByNormalizedKey(row: Row, cands: seq<string>) returns (v: Cell)
    ensures v == Resolve(row, cands)
  {
    var nrow: map<string, Cell> := map[];
    var i := 0;
    while i < |row|
      invariant 0 <= i <= |row|
      invariant nrow == NormalizedRow(row[..i])
    {
      NormalizedRowSnoc(row, i);
      nrow := nrow[NormalizeKey(row[i].0) := row[i].1];
      i := i + 1;
    }
    assert row[..|row|] == row;
    var j := 0;
    while j < |cands|
      invariant 0 <= j <= |cands|
      invariant FirstPresent(nrow, cands[j..]) == FirstPresent(nrow, cands)
    {
      var nk := NormalizeKey(cands[j]);
      if nk in nrow && Present(nrow[nk]) {
        assert nrow[nk] == Lookup(nrow, cands[j..][0]);
        return nrow[nk];
      }
      assert cands[j..][1..] == cands[j + 1..];
      j := j + 1;
    }
    return Null;
  }
}
