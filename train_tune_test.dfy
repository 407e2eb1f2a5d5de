/**
 * The train/tune/test split of a tagged corpus: line i goes to the tune file
 * when i ends in 0, to the test file when it ends in 1 or 2, and to the
 * train file otherwise, a 7/1/2 ratio.
 */
module TrainTuneTest {
  import opened Wrappers
  import opened Text

  datatype Part = Train | Tune | Test

  /** Where line `index` (counted from 0) is written. */
  function Route(index: nat): Part
  {
    if index % 10 == 0 then Tune
    else if index % 10 < 3 then Test
    else Train
  }

  /** The lines written to `part`, in the order they were read. */
  function Routed<T>(lines: seq<T>, part: Part): seq<T>
  {
    if lines == [] then []
    else Routed(lines[..|lines| - 1], part) + if Route(|lines| - 1) == part then [lines[|lines| - 1]] else []
  }

  /** The indices below `n` routed to `part`, in increasing order. */
  function Picked(n: nat, part: Part): seq<nat>
  {
    if n == 0 then [] else Picked(n - 1, part) + if Route(n - 1) == part then [n - 1] else []
  }

  /** The j-th line written to `part` is the input line at the j-th index routed there. */
  lemma {:induction false} RoutedPicks<T>(lines: seq<T>, part: Part)
    ensures |Routed(lines, part)| == |Picked(|lines|, part)|
    ensures forall j | 0 <= j < |Picked(|lines|, part)| ::
      Picked(|lines|, part)[j] < |lines| && Routed(lines, part)[j] == lines[Picked(|lines|, part)[j]]
  {
    if lines != [] {
      var init := lines[..|lines| - 1];
      RoutedPicks(init, part);
      var ps := Picked(|lines|, part);
      forall j | 0 <= j < |ps|
        ensures ps[j] < |lines| && Routed(lines, part)[j] == lines[ps[j]]
      {
        if j < |Picked(|init|, part)| {
          assert ps[j] == Picked(|init|, part)[j];
          assert Routed(lines, part)[j] == Routed(init, part)[j];
          assert init[ps[j]] == lines[ps[j]];
        }
      }
    }
  }

  /**
   * The indices routed to `part` are exactly those whose route is `part`,
   * each once, in increasing order; so every line goes to exactly one file,
   * and each file keeps the input order.
   */
  lemma {:induction false} PickedExactly(n: nat, part: Part)
    ensures forall i: nat :: i in Picked(n, part) <==> i < n && Route(i) == part
    ensures forall j, k | 0 <= j < k < |Picked(n, part)| :: Picked(n, part)[j] < Picked(n, part)[k]
  {
    if n > 0 {
      PickedExactly(n - 1, part);
      var ps := Picked(n, part);
      var init := Picked(n - 1, part);
      forall j, k | 0 <= j < k < |ps|
        ensures ps[j] < ps[k]
      {
        assert ps[j] == init[j] && ps[j] in init;
        if k < |init| {
          assert ps[k] == init[k];
        }
      }
    }
  }

  /** The three files together have as many lines as the input. */
  lemma {:induction false} PartitionSizes<T>(lines: seq<T>)
    ensures |Routed(lines, Train)| + |Routed(lines, Tune)| + |Routed(lines, Test)| == |lines|
  {
    if lines != [] {
      PartitionSizes(lines[..|lines| - 1]);
    }
  }

  /** Of n lines, the tune file gets one in ten, rounded up. */
  lemma {:induction false} TuneCount(n: nat)
    ensures |Picked(n, Tune)| == (n + 9) / 10
  {
    if n > 0 {
      TuneCount(n - 1);
    }
  }

  /** The files written, each with its name. */
  datatype Outputs = Outputs(trainName: string, tuneName: string, testName: string,
                             train: seq<string>, tune: seq<string>, test: seq<string>)

  /** The last component of the path. */
  function BaseName(path: string, sep: string): string
    requires sep != []
  {
    var parts := Split(path, sep);
    parts[|parts| - 1]
  }

  /**
   * The script on its arguments (without the program name) and the lines
   * of the file the first one names. With no argument it prints its usage
   * and then fails on `args[0]`.
   */
  method TrainTuneTest(args: seq<string>, sep: string, lines: seq<string>) returns (r: Result<Outputs>)
    requires sep != []
    ensures r.Err? <==> args == []
    ensures r.Ok? ==> var name := BaseName(args[0], sep);
      r.value == Outputs("train_" + name, "tune_" + name, "test_" + name,
                         Routed(lines, Train), Routed(lines, Tune), Routed(lines, Test))
  {
    if args == [] {
      return Err(IndexError);
    }
    var name := BaseName(args[0], sep);
    var train, tune, test := [], [], [];
    var index := 0;
    for i := 0 to |lines|
      invariant index == i
      invariant train == Routed(lines[..i], Train)
      invariant tune == Routed(lines[..i], Tune)
      invariant test == Routed(lines[..i], Test)
    {
      assert lines[..i + 1][..i] == lines[..i];
      if index % 10 == 0 {
        tune := tune + [lines[i]];
      } else if index % 10 < 3 {
        test := test + [lines[i]];
      } else {
        train := train + [lines[i]];
      }
      index := index + 1;
    }
    assert lines[..|lines|] == lines;
    r := Ok(Outputs("train_" + name, "tune_" + name, "test_" + name, train, tune, test));
  }
}
