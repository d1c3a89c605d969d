/**
 * The walks of main/walk.py: a walk is the list of steps between two
 * places, stored in a file named after its ends, and the way back is the
 * reversed walk with every compass step turned around.
 */
module Walk {
  import opened Wrappers
  import opened Strings

  /** `rsteps`: each of the eight compass directions and its opposite. */
  const RSteps: map<string, string> := map[
    "north" := "south", "east" := "west", "south" := "north", "west" := "east",
    "northeast" := "southwest", "southeast" := "northwest",
    "southwest" := "northeast", "northwest" := "southeast"]

  /** `reversestep`: the opposite compass direction; any other step is its own reverse. */
  function ReverseStep(step: string): (r: string)
    ensures step in RSteps ==> r in RSteps && r != step
    ensures step !in RSteps ==> r == step
  {
    assert RSteps.Keys == {"north", "east", "south", "west", "northeast", "southeast", "southwest", "northwest"};
    if step in RSteps then RSteps[step] else step
  }

  /**
   * A compass step turns into another compass step, a different one, and
   * turning it around twice gives it back; any other step stays as it is.
   */
  lemma ReverseStepTwice(step: string)
    ensures step in RSteps <==> ReverseStep(step) in RSteps
    ensures step in RSteps ==> ReverseStep(step) != step
    ensures step !in RSteps ==> ReverseStep(step) == step
    ensures ReverseStep(ReverseStep(step)) == step
  {
    assert RSteps.Keys == {"north", "east", "south", "west", "northeast", "southeast", "southwest", "northwest"};
  }

  /** `reversewalk`: the steps from last to first, each turned around. */
  function ReverseWalk(walk: seq<string>): (r: seq<string>)
    ensures |r| == |walk|
  {
    seq(|walk|, i requires 0 <= i < |walk| => ReverseStep(walk[|walk| - 1 - i]))
  }

  /** The way back of the way back is the walk itself. */
  lemma ReverseWalkTwice(walk: seq<string>)
    ensures ReverseWalk(ReverseWalk(walk)) == walk
  {
    var once := ReverseWalk(walk);
    forall i | 0 <= i < |walk|
      ensures ReverseWalk(once)[i] == walk[i]
    {
      assert once[|walk| - 1 - i] == ReverseStep(walk[i]);
      ReverseStepTwice(walk[i]);
    }
  }

  /** `getfname`: "<start>-<end>-path.txt". */
  function GetFname(start: string, end: string): (r: string)
    ensures StartsWith(r, start + "-") && EndsWith(r, "-path.txt")
  {
    var r := start + "-" + end + "-path.txt";
    assert r[..|start| + 1] == start + "-";
    assert r[|r| - 9..] == "-path.txt";
    r
  }

  /**
   * `getstartend`: the first two "-"-separated parts of a file name;
   * `None` where the unpacking raises because there is no "-".
   */
  function GetStartEnd(fname: string): (r: Option<(string, string)>)
    ensures r.None? <==> '-' !in fname
    ensures r.Some? ==> '-' !in r.value.0 && '-' !in r.value.1
  {
    var parts := Split(fname, '-');
    if |parts| < 2 then
      assert '-' !in fname by {
        if '-' in fname {
          var k :| 0 <= k < |fname| && fname[k] == '-';
          SplitHasTwo(fname, k);
        }
      }
      None
    else
      assert '-' in fname by {
        if '-' !in fname { SplitNoSep(fname, '-'); }
      }
      Some((parts[0], parts[1]))
  }

  /** A string with a separator splits into at least two parts. */
  lemma {:induction false} SplitHasTwo(s: string, k: nat)
    requires k < |s| && s[k] == '-'
    ensures |Split(s, '-')| >= 2
    decreases k
  {
    if k > 0 && s[0] != '-' {
      SplitHasTwo(s[1..], k - 1);
    }
  }

  /** The ends a file name was made from are read back from it. */
  lemma GetStartEndOfFname(start: string, end: string)
    requires '-' !in start && '-' !in end
    ensures GetStartEnd(GetFname(start, end)) == Some((start, end))
  {
    assert GetFname(start, end) == start + ['-'] + (end + ['-'] + "path.txt");
    SplitOfConcat(start, '-', end + ['-'] + "path.txt");
    SplitOfConcat(end, '-', "path.txt");
  }
}
