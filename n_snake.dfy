/**
 * The decisions of the training driver: the move the network picks, the
 * input it is shown, and whether a played child becomes the new best and
 * joins the elite list.
 */
module Driver {
  import opened Oracle
  import opened NeuralNet
  import opened Snake
  import opened Elite

  /** ELITE_THRESHOLD: a child is admitted above this fraction of the best performance. */
  const ELITE_THRESHOLD: real := 0.8

  // ---------------------------------------------------------------------
  // Picking the move: `_find_max_in_array`
  // ---------------------------------------------------------------------

  /** `i` holds a maximum of `a`, and every earlier element is strictly smaller. */
  predicate FirstMax(a: seq<real>, i: int) {
    && 0 <= i < |a|
    && (forall j :: 0 <= j < |a| ==> a[j] <= a[i])
    && (forall j :: 0 <= j < i ==> a[j] < a[i])
  }

  /** At most one index is the first maximum. */
  lemma FirstMaxUnique(a: seq<real>, i: int, k: int)
    requires FirstMax(a, i) && FirstMax(a, k)
    ensures i == k
  {
    assert a[k] <= a[i] && a[i] <= a[k];
  }

  /** When every element is the same, the first maximum is index 0. */
  lemma FirstMaxOfEqual(a: seq<real>)
    requires |a| >= 1 && forall j :: 0 <= j < |a| ==> a[j] == a[0]
    ensures FirstMax(a, 0)
  {
  }

  /**
   * `_find_max_in_array`: a running maximum replaced only by a strictly
   * larger element. It reads `arr[0]` before looking at `len`, so the array
   * must have an element; for `len < 1` the answer is 0.
   */
  method FindMax(arr: seq<real>, len: int) returns (iMax: int)
    requires 1 <= |arr| && len <= |arr|
    ensures len >= 1 ==> FirstMax(arr[..len], iMax)
    ensures len < 1 ==> iMax == 0
  {
    var fMax := arr[0];
    iMax := 0;
    var i := 1;
    while i < len
      invariant 1 <= i <= |arr| && i <= (if len >= 1 then len else 1)
      invariant 0 <= iMax < i && fMax == arr[iMax]
      invariant forall j :: 0 <= j < i ==> arr[j] <= fMax
      invariant forall j :: 0 <= j < iMax ==> arr[j] < fMax
    {
      if fMax < arr[i] {
        fMax := arr[i];
        iMax := i;
      }
      i := i + 1;
    }
    if len >= 1 {
      assert i == len && arr[..len][iMax] == fMax;
      assert forall j :: 0 <= j < len ==> arr[..len][j] == arr[j];
    }
  }

  /** All-equal outputs send the snake up. */
  lemma TiesMoveUp(out: seq<real>, i: int)
    requires |out| >= 4 && (forall j :: 0 <= j < 4 ==> out[j] == out[0]) && FirstMax(out[..4], i)
    ensures FromCode(i) == Up
  {
    FirstMaxOfEqual(out[..4]);
    FirstMaxUnique(out[..4], i, 0);
  }

  /** A real direction requested with the guard on never leaves the snake without a direction. */
  lemma SteerKeepsMoving(cur: Direction, req: Direction)
    requires req != NoDirection
    ensures Steer(cur, req, true) != NoDirection
  {
  }

  // ---------------------------------------------------------------------
  // One tick of `_ai_run_n_games`
  // ---------------------------------------------------------------------

  /** The network input of `_ai_run_n_games`: the four hit distances, then the four food offsets. */
  function Input(hit: seq<int>, food: seq<int>): (v: seq<real>)
    requires |hit| == 4 && |food| == 4
    ensures |v| == 8
    ensures forall k :: 0 <= k < 4 ==> v[k] == hit[k] as real && v[4 + k] == food[k] as real
  {
    [hit[0] as real, hit[1] as real, hit[2] as real, hit[3] as real,
     food[0] as real, food[1] as real, food[2] as real, food[3] as real]
  }

  /**
   * The decision of one tick: the features go through the network, the
   * first maximum of the first four outputs names the direction, and it is
   * set with the reversal guard on, so the snake always has a direction.
   */
  method Decide(nn: Network, g: Game, f: Curves) returns (dir: Direction)
    requires nn.Valid() && nn.cfg.nInput == 8 && nn.cfg.nOutput >= 4 && g.Valid()
    modifies nn.output, g`snakeDir
    ensures nn.Valid() && dir != NoDirection
    ensures FirstMax(Forward(nn.cfg, nn.weight[..], nn.bias[..], Input(g.distToHit[..], g.distToFood[..]), f, nn.cfg.nHidden)[..4],
                     Code(dir))
    ensures g.snakeDir == Steer(old(g.snakeDir), dir, true) && g.snakeDir != NoDirection
  {
    var input := Input(g.distToHit[..], g.distToFood[..]);
    var output := nn.Run(input, f);
    var i := FindMax(output, 4);
    dir := FromCode(i);
    g.SetDirection(dir, 1);
    SteerKeepsMoving(old(g.snakeDir), dir);
  }

  // ---------------------------------------------------------------------
  // One evolution step of `ai_progress`: the generation count and admission
  // ---------------------------------------------------------------------

  /** The best performance after a child scoring `p` is counted. */
  function NewBest(best: real, p: real): (b: real)
    ensures b >= best && b >= p && (b == best || b == p)
  {
    if p > best then p else best
  }

  /** Whether a child scoring `p` joins the elite list, against the best after it is counted. */
  predicate Admitted(best: real, p: real) {
    p > NewBest(best, p) * ELITE_THRESHOLD
  }

  /**
   * A new best with positive performance is always admitted; a child at or
   * below the threshold of a non-negative old best never is; a child without
   * positive performance never is.
   */
  lemma AdmissionRule(best: real, p: real)
    ensures p > best && p > 0.0 ==> Admitted(best, p)
    ensures best >= 0.0 && p <= best * ELITE_THRESHOLD ==> !Admitted(best, p)
    ensures p <= 0.0 ==> !Admitted(best, p)
    ensures NewBest(best, p) >= best && NewBest(best, p) >= p
  {
  }

  /** The global `AIStatus`. */
  class Status {
    var gen: int
    var bestPerformance: real
    var bestScore: real
    const eliteList: EliteList<Network>

    ghost predicate Valid()
      reads this, eliteList
    {
      eliteList.Valid()
    }

    /** A fresh status: generation 0, no best yet, an empty elite list of capacity `maxLen`. */
    constructor Init(maxLen: int)
      ensures Valid() && gen == 0 && bestPerformance == 0.0 && bestScore == 0.0
      ensures fresh(eliteList) && eliteList.maxLen == maxLen && eliteList.entries == []
    {
      gen := 0;
      bestPerformance := 0.0;
      bestScore := 0.0;
      eliteList := new EliteList.Init(maxLen);
    }

    /**
     * The end of one `ai_progress` iteration: a child beating the best
     * counts a generation and becomes the best; then it is added to the
     * elite list if it clears the threshold of the (updated) best, and
     * otherwise dropped.
     */
    method Evolve(nn: Network, performance: real, score: real) returns (admitted: bool)
      requires Valid()
      modifies this`gen, this`bestPerformance, this`bestScore, eliteList`entries
      ensures Valid()
      ensures performance > old(bestPerformance) ==>
                gen == old(gen) + 1 && bestPerformance == performance && bestScore == score
      ensures performance <= old(bestPerformance) ==>
                gen == old(gen) && bestPerformance == old(bestPerformance) && bestScore == old(bestScore)
      ensures admitted <==> Admitted(old(bestPerformance), performance)
      ensures admitted ==> eliteList.entries == Added(eliteList.maxLen, old(eliteList.entries), Entry(nn, performance))
      ensures !admitted ==> eliteList.entries == old(eliteList.entries)
    {
      if performance > bestPerformance {
        gen := gen + 1;
        bestPerformance := performance;
        bestScore := score;
      }
      admitted := performance > bestPerformance * ELITE_THRESHOLD;
      if admitted {
        eliteList.Add(nn, performance);
      }
    }
  }
}
