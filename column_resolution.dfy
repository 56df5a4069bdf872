/** Resolution of a logical field to a column of the dataset's header, from an
    ordered list of acceptable aliases (`_find_column` in update_input.py). */
module ColumnResolution {
  import opened Common
  import opened Text

  /** The two passes of the search: equality (exact or ignoring case), then
      case-insensitive containment. */
  datatype Pass = Equality | Substring

  /** Whether column `col` answers to `name` in the given pass. Either pass
      accepts the name itself; the equality pass only names of the same
      length, the substring pass only names no longer than the column. */
  function Matches(pass: Pass, name: string, col: string): (r: bool)
    ensures col == name ==> r
    ensures r ==> |name| <= |col|
    ensures pass == Equality && r ==> |name| == |col|
  {
    match pass
    case Equality => col == name || Lower(col) == Lower(name)
    case Substring =>
      assert col == name ==> Contains(Lower(name), Lower(col)) by {
        if col == name {
          EqualImpliesContains(Lower(name), Lower(col));
        }
      }
      Contains(Lower(name), Lower(col))
  }

  /** A resolved column: its position in the header and its stripped name. */
  datatype Column = Column(index: nat, name: string)

  /** The error `_find_column` raises; it reports the aliases and the header. */
  datatype ColumnNotFound = ColumnNotFound(candidates: seq<string>, existing: seq<string>)

  function StripAll(header: seq<string>): (cols: seq<string>)
    ensures |cols| == |header|
    ensures forall j :: 0 <= j < |header| ==> cols[j] == Strip(header[j])
  {
    seq(|header|, j requires 0 <= j < |header| => Strip(header[j]))
  }

  /** The inner loop of one pass: the first column, from `from` on, that
      matches `name`. */
  function FirstColumn(pass: Pass, name: string, cols: seq<string>, from: nat): (r: Option<nat>)
    requires from <= |cols|
    ensures r.Some? ==> from <= r.value < |cols| && Matches(pass, name, cols[r.value])
    ensures r.Some? ==> forall j :: from <= j < r.value ==> !Matches(pass, name, cols[j])
    ensures r.None? ==> forall j :: from <= j < |cols| ==> !Matches(pass, name, cols[j])
    decreases |cols| - from
  {
    if from == |cols| then None
    else if Matches(pass, name, cols[from]) then Some(from)
    else FirstColumn(pass, name, cols, from + 1)
  }

  /** One whole pass: the first candidate, from `from` on, that matches some
      column, paired with the first column it matches. */
  function SearchPass(pass: Pass, candidates: seq<string>, cols: seq<string>, from: nat): (r: Option<(nat, nat)>)
    requires from <= |candidates|
    ensures r.Some? ==> from <= r.value.0 < |candidates| && r.value.1 < |cols|
    ensures r.Some? ==> Matches(pass, candidates[r.value.0], cols[r.value.1])
    ensures r.Some? ==> forall j :: 0 <= j < r.value.1 ==> !Matches(pass, candidates[r.value.0], cols[j])
    ensures r.Some? ==> forall i, j :: from <= i < r.value.0 && 0 <= j < |cols| ==> !Matches(pass, candidates[i], cols[j])
    ensures r.None? ==> forall i, j :: from <= i < |candidates| && 0 <= j < |cols| ==> !Matches(pass, candidates[i], cols[j])
    decreases |candidates| - from
  {
    if from == |candidates| then None
    else match FirstColumn(pass, candidates[from], cols, 0)
      case Some(j) => Some((from, j))
      case None => SearchPass(pass, candidates, cols, from + 1)
  }

  /** `_find_column`: the equality pass first, the substring pass only when it
      finds nothing, and the error when neither does. The error is raised
      exactly when no candidate is contained, ignoring case, in any stripped
      column name. */
  function FindColumn(header: seq<string>, candidates: seq<string>): (r: Result<Column, ColumnNotFound>)
    ensures r.Ok? ==> r.value.index < |header| && r.value.name == Strip(header[r.value.index])
    ensures r.Err? ==> r.error == ColumnNotFound(candidates, header)
    ensures r.Err? <==> forall i, j :: 0 <= i < |candidates| && 0 <= j < |header| ==>
                          !Matches(Substring, candidates[i], Strip(header[j]))
  {
    var cols := StripAll(header);
    match SearchPass(Equality, candidates, cols, 0)
    case Some((_, j)) =>
      EqualityImpliesSubstring(candidates, cols);
      Ok(Column(j, cols[j]))
    case None =>
      match SearchPass(Substring, candidates, cols, 0)
      case Some((_, j)) => Ok(Column(j, cols[j]))
      case None => Err(ColumnNotFound(candidates, header))
  }

  /** An equality match is also a substring match, so the first pass can only
      succeed where the second would. */
  lemma EqualityImpliesSubstring(candidates: seq<string>, cols: seq<string>)
    ensures forall i, j :: 0 <= i < |candidates| && 0 <= j < |cols| && Matches(Equality, candidates[i], cols[j]) ==>
              Matches(Substring, candidates[i], cols[j])
  {
    forall i, j | 0 <= i < |candidates| && 0 <= j < |cols| && Matches(Equality, candidates[i], cols[j])
      ensures Matches(Substring, candidates[i], cols[j])
    {
      EqualImpliesContains(Lower(candidates[i]), Lower(cols[j]));
    }
  }

  /** The earliest candidate that equals some stripped column (ignoring case)
      wins, and for it the earliest such column is returned. */
  lemma {:induction false} EqualityPassWins(header: seq<string>, candidates: seq<string>, i: nat, j: nat)
    requires i < |candidates| && j < |header|
    requires Matches(Equality, candidates[i], Strip(header[j]))
    requires forall i', j' :: 0 <= i' < i && 0 <= j' < |header| ==> !Matches(Equality, candidates[i'], Strip(header[j']))
    requires forall j' :: 0 <= j' < j ==> !Matches(Equality, candidates[i], Strip(header[j']))
    ensures FindColumn(header, candidates) == Ok(Column(j, Strip(header[j])))
  {
    var cols := StripAll(header);
    var r := SearchPass(Equality, candidates, cols, 0);
    assert Matches(Equality, candidates[i], cols[j]);
    assert r.Some?;
    var i0, j0 := r.value.0, r.value.1;
    assert Matches(Equality, candidates[i0], Strip(header[j0]));
    assert i0 == i;
    assert j0 == j;
    assert FindColumn(header, candidates) == Ok(Column(j0, cols[j0]));
  }

  /** When no candidate equals any column, the substring pass decides: the
      earliest candidate contained in some column, and the first such column. */
  lemma {:induction false} SubstringPassFallback(header: seq<string>, candidates: seq<string>, i: nat, j: nat)
    requires i < |candidates| && j < |header|
    requires forall i', j' :: 0 <= i' < |candidates| && 0 <= j' < |header| ==> !Matches(Equality, candidates[i'], Strip(header[j']))
    requires Matches(Substring, candidates[i], Strip(header[j]))
    requires forall i', j' :: 0 <= i' < i && 0 <= j' < |header| ==> !Matches(Substring, candidates[i'], Strip(header[j']))
    requires forall j' :: 0 <= j' < j ==> !Matches(Substring, candidates[i], Strip(header[j']))
    ensures FindColumn(header, candidates) == Ok(Column(j, Strip(header[j])))
  {
    var cols := StripAll(header);
    var e := SearchPass(Equality, candidates, cols, 0);
    assert e.None?;
    var r := SearchPass(Substring, candidates, cols, 0);
    assert Matches(Substring, candidates[i], cols[j]);
    assert r.Some?;
    var i0, j0 := r.value.0, r.value.1;
    assert Matches(Substring, candidates[i0], Strip(header[j0]));
    assert i0 == i;
    assert j0 == j;
    assert FindColumn(header, candidates) == Ok(Column(j0, cols[j0]));
  }

  /** The aliases `load_and_prepare` uses for the time column. */
  const TimeAliases: seq<string> := ["Time (s)", "Timestamp", "time", "t"]

  /** The header ["Time (s)", "tracking_error"] resolves the time aliases
      ["Time (s)", "Timestamp"] to "Time (s)"; the equality pass decides. */
  lemma TimeColumnExample()
    ensures FindColumn(["Time (s)", "tracking_error"], ["Time (s)", "Timestamp"]) == Ok(Column(0, "Time (s)"))
  {
    var header := ["Time (s)", "tracking_error"];
    assert Strip(header[0]) == "Time (s)";
    EqualityPassWins(header, ["Time (s)", "Timestamp"], 0, 0);
  }

  /** Stripping only shortens a name, and a candidate longer than a name
      cannot occur in it: when every candidate is longer than every header
      name, resolution fails. */
  lemma ShorterHeaderFails(header: seq<string>, candidates: seq<string>)
    requires forall i, j :: 0 <= i < |candidates| && 0 <= j < |header| ==> |header[j]| < |candidates[i]|
    ensures FindColumn(header, candidates).Err?
  {
    forall i, j | 0 <= i < |candidates| && 0 <= j < |header|
      ensures !Matches(Substring, candidates[i], Strip(header[j]))
    {
      LongerNotContained(Lower(candidates[i]), Lower(Strip(header[j])));
    }
  }

  /** With no alias anywhere in the header, resolution fails. */
  lemma MissingColumnExample()
    ensures FindColumn(["Altitude"], ["Tracking Error"]).Err?
  {
    ShorterHeaderFails(["Altitude"], ["Tracking Error"]);
  }
}
