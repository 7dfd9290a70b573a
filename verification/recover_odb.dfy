/**
 * Selection of the ODB dump to restore: an explicit run index from the
 * command line, or the largest index among the dumps found under `data/`.
 * The directory listing is a parameter; removing the shared-memory file and
 * the `odbedit` calls are outside the model.
 */
module RecoverOdb {
  import opened Common
  import Decimal
  import Text

  /** The Python exceptions the script can end with. */
  datatype RecoverError =
    | IndexError   // a listed path without "/run"
    | ValueError   // an index that is not an integer
    | EmptyArgmax  // no dump was found

  /** `'data/run%05i.odb' % k`. */
  function OdbPath(k: int): (r: string)
    ensures |r| >= 17 && r[..8] == "data/run" && r[|r| - 4..] == ".odb"
    ensures Decimal.ParseInt(r[8..|r| - 4]) == Some(k)
  {
    var z := Decimal.ZeroPadded(k, 5);
    Decimal.ParseZeroPadded(k, 5);
    var r := "data/run" + z + ".odb";
    assert r[8..|r| - 4] == z;
    r
  }

  /**
   * `int(f.split('/run')[1].split('.odb')[0])`: the text after the first
   * "/run" up to the next "/run", cut at the first ".odb".
   */
  function ParseIndex(path: string): (r: Result<int, RecoverError>)
    ensures r == Err(IndexError) <==> Text.FindFirst(path, "/run").None?
  {
    var parts := Text.Split(path, "/run");
    if |parts| < 2 then
      assert Text.FindFirst(path, "/run").None?;
      Err(IndexError)
    else
      assert Text.FindFirst(path, "/run").Some?;
      match Decimal.PyInt(Text.Split(parts[1], ".odb")[0])
      case None => Err(ValueError)
      case Some(k) => Ok(k)
  }

  /** The indices of all paths, in order, or the first path's exception. */
  function ParseIndices(paths: seq<string>): (r: Result<seq<int>, RecoverError>)
    ensures r.Ok? <==> forall i :: 0 <= i < |paths| ==> ParseIndex(paths[i]).Ok?
    ensures r.Ok? ==> |r.value| == |paths| && forall i :: 0 <= i < |paths| ==> ParseIndex(paths[i]) == Ok(r.value[i])
    ensures r.Err? ==> exists i :: (0 <= i < |paths| && ParseIndex(paths[i]) == Err(r.error)
                                    && forall j :: 0 <= j < i ==> ParseIndex(paths[j]).Ok?)
  {
    var rs := seq(|paths|, i requires 0 <= i < |paths| => ParseIndex(paths[i]));
    assert forall i :: 0 <= i < |paths| ==> rs[i] == ParseIndex(paths[i]);
    Collect(rs)
  }

  /**
   * A loop appending one value per element, any of which may raise: the
   * values in order, or the exception of the first element that raises.
   */
  function Collect(rs: seq<Result<int, RecoverError>>): (r: Result<seq<int>, RecoverError>)
    ensures r.Ok? <==> forall i :: 0 <= i < |rs| ==> rs[i].Ok?
    ensures r.Ok? ==> |r.value| == |rs| && forall i :: 0 <= i < |rs| ==> rs[i] == Ok(r.value[i])
    ensures r.Err? ==> exists i :: 0 <= i < |rs| && rs[i] == Err(r.error) && forall j :: 0 <= j < i ==> rs[j].Ok?
    decreases |rs|
  {
    if rs == [] then Ok([])
    else
      match rs[0]
      case Err(e) => Err(e)
      case Ok(k) =>
        var rest := Collect(rs[1..]);
        assert forall i :: 1 <= i < |rs| ==> rs[i] == rs[1..][i - 1];
        match rest
        case Err(e) =>
          FirstErrorShifts(rs, e);
          Err(e)
        case Ok(ks) => Ok([k] + ks)
  }

  lemma FirstErrorShifts(rs: seq<Result<int, RecoverError>>, e: RecoverError)
    requires |rs| >= 1 && rs[0].Ok?
    requires exists i :: 0 <= i < |rs| - 1 && rs[1..][i] == Err(e) && forall j :: 0 <= j < i ==> rs[1..][j].Ok?
    ensures exists i :: 0 <= i < |rs| && rs[i] == Err(e) && forall j :: 0 <= j < i ==> rs[j].Ok?
  {
    var i :| 0 <= i < |rs| - 1 && rs[1..][i] == Err(e) && forall j :: 0 <= j < i ==> rs[1..][j].Ok?;
    forall j | 1 <= j < i + 1 ensures rs[j].Ok? {
      assert rs[j] == rs[1..][j - 1];
    }
    assert rs[i + 1] == Err(e);
  }

  /** `np.argmax`: the first position holding the maximum. */
  method ArgMax(xs: seq<int>) returns (best: nat)
    requires |xs| > 0
    ensures best < |xs|
    ensures forall j :: 0 <= j < |xs| ==> xs[j] <= xs[best]
    ensures forall j :: 0 <= j < best ==> xs[j] < xs[best]
  {
    best := 0;
    var i := 1;
    while i < |xs|
      invariant 1 <= i <= |xs|
      invariant best < i
      invariant forall j :: 0 <= j < i ==> xs[j] <= xs[best]
      invariant forall j :: 0 <= j < best ==> xs[j] < xs[best]
    {
      if xs[i] > xs[best] {
        best := i;
      }
      i := i + 1;
    }
  }

  /**
   * The dump the script restores, given `sys.argv` and the listing of
   * `data/run*.odb`.
   */
  method ChooseDump(argv: seq<string>, listing: seq<string>) returns (r: Result<string, RecoverError>)
    ensures |argv| > 1 ==>
      (r.Ok? <==> Decimal.PyInt(argv[1]).Some?)
      && (r.Ok? ==> r.value == OdbPath(Decimal.PyInt(argv[1]).value))
      && (r.Err? ==> r.error == ValueError)
    ensures |argv| <= 1 && listing == [] ==> r == Err(EmptyArgmax)
    ensures |argv| <= 1 && ParseIndices(listing).Err? ==> r == Err(ParseIndices(listing).error)
    ensures |argv| <= 1 && listing != [] && ParseIndices(listing).Ok? ==>
      exists i :: 0 <= i < |listing| && r == Ok(OdbPath(ParseIndices(listing).value[i]))
        && forall j :: 0 <= j < |listing| ==> ParseIndices(listing).value[j] <= ParseIndices(listing).value[i]
  {
    if |argv| > 1 {
      match Decimal.PyInt(argv[1])
      case None => r := Err(ValueError);
      case Some(k) => r := Ok(OdbPath(k));
    } else {
      var parsed := ParseIndices(listing);
      match parsed
      case Err(e) => r := Err(e);
      case Ok(ks) =>
        if ks == [] {
          r := Err(EmptyArgmax);
        } else {
          var best := ArgMax(ks);
          r := Ok(OdbPath(ks[best]));
        }
    }
  }

  lemma ZeroPaddedChars(n: int, width: nat)
    ensures forall i :: 0 <= i < |Decimal.ZeroPadded(n, width)| ==>
      Decimal.ZeroPadded(n, width)[i] == '-' || Decimal.IsDigit(Decimal.ZeroPadded(n, width)[i])
  {
    var z := Decimal.ZeroPadded(n, width);
    var digits := Decimal.NatToString(if n < 0 then -n else n);
    var padded := Decimal.PadLeft(digits, '0', if n < 0 then (if width == 0 then 0 else width - 1) else width);
    assert z == (if n < 0 then "-" + padded else padded);
    forall i | 0 <= i < |padded| ensures Decimal.IsDigit(padded[i]) {
      if i >= |padded| - |digits| {
        assert padded[i] == padded[|padded| - |digits|..][i - (|padded| - |digits|)];
      }
    }
  }

  lemma SplitAtRun(tail: string)
    requires '/' !in tail
    ensures Text.Split("data" + "/run" + tail, "/run") == ["data", tail]
  {
    var s := "data" + "/run" + tail;
    Text.FirstOccurrenceAfter("data", "/run", tail);
    Text.AbsentFirstChar(tail, "/run");
    assert s[8..] == tail;
    assert s[..4] == "data";
  }

  lemma SplitAtOdb(z: string)
    requires '.' !in z
    ensures Text.Split(z + ".odb", ".odb")[0] == z
  {
    Text.FirstOccurrenceAfter(z, ".odb", "");
    assert z + ".odb" + "" == z + ".odb";
    assert (z + ".odb")[..|z|] == z;
  }

  /** The index read back from a dump's name is the index it was formatted from, whatever its sign or width. */
  lemma ParseOdbPath(k: int)
    ensures ParseIndex(OdbPath(k)) == Ok(k)
  {
    var z := Decimal.ZeroPadded(k, 5);
    OdbPathShape(k);
    ZeroPaddedReads(k);
    ZeroPaddedFree(k);
    ParseRunNumber(z, k);
  }

  lemma OdbPathShape(k: int)
    ensures OdbPath(k) == "data" + "/run" + (Decimal.ZeroPadded(k, 5) + ".odb")
  {
    var z := Decimal.ZeroPadded(k, 5);
    assert OdbPath(k) == "data/run" + z + ".odb";
    RegroupPath("data", "/run", z, ".odb");
  }

  lemma RegroupPath(a: string, b: string, c: string, d: string)
    ensures (a + b) + c + d == a + b + (c + d)
  {
  }

  lemma ZeroPaddedReads(k: int)
    ensures Decimal.PyInt(Decimal.ZeroPadded(k, 5)) == Some(k)
  {
    ZeroPaddedFree(k);
    Decimal.PyIntWithoutSpace(Decimal.ZeroPadded(k, 5));
    Decimal.ParseZeroPadded(k, 5);
  }

  lemma ParseRunNumber(z: string, k: int)
    requires '/' !in z && '.' !in z && Decimal.PyInt(z) == Some(k)
    ensures ParseIndex("data" + "/run" + (z + ".odb")) == Ok(k)
  {
    ParseRunName(z);
  }

  lemma ZeroPaddedFree(k: int)
    ensures '/' !in Decimal.ZeroPadded(k, 5) && '.' !in Decimal.ZeroPadded(k, 5)
    ensures forall i :: 0 <= i < |Decimal.ZeroPadded(k, 5)| ==> !Decimal.IsSpace(Decimal.ZeroPadded(k, 5)[i])
  {
    var z := Decimal.ZeroPadded(k, 5);
    ZeroPaddedChars(k, 5);
    forall i | 0 <= i < |z| ensures z[i] != '/' && z[i] != '.' && !Decimal.IsSpace(z[i]) {
    }
  }

  /** A name of the form data/run<z>.odb, with no separator or dot in `z`, parses as `z` does. */
  lemma ParseRunName(z: string)
    requires '/' !in z && '.' !in z
    ensures ParseIndex("data" + "/run" + (z + ".odb"))
         == (if Decimal.PyInt(z).Some? then Ok(Decimal.PyInt(z).value) else Err(ValueError))
  {
    var tail := z + ".odb";
    assert '/' !in tail by {
      assert forall i :: 0 <= i < |z| ==> tail[i] == z[i];
    }
    SplitAtRun(tail);
    SplitAtOdb(z);
  }

  /** A listing of dumps written by the script parses to the indices they were written for. */
  lemma ParseDumpListing(ks: seq<int>)
    ensures ParseIndices(seq(|ks|, i requires 0 <= i < |ks| => OdbPath(ks[i]))) == Ok(ks)
  {
    var listing := seq(|ks|, i requires 0 <= i < |ks| => OdbPath(ks[i]));
    forall i | 0 <= i < |ks| ensures ParseIndex(listing[i]) == Ok(ks[i]) {
      ParseOdbPath(ks[i]);
    }
    var r := ParseIndices(listing);
    assert r.Ok?;
    assert r.value == ks;
  }

  /** Every path `glob('data/run*.odb')` lists contains "/run", so the listing never raises `IndexError`. */
  lemma GlobbedPathsHaveRun(path: string)
    requires |path| >= 8 && path[..8] == "data/run"
    ensures ParseIndex(path) != Err(IndexError)
  {
    assert Text.OccursAt(path, "/run", 4) by {
      assert path[4..8] == path[..8][4..8];
    }
  }
}
