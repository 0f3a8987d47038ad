/**
 The evaluation at the end of a task: count the lit output slots, remember
 the last lit one, and choose one of the four verdicts.
 */
module Verdicts {
  import opened Codec

  /** The four outcomes of a finished test (the messages sent to the player). */
  datatype Verdict = NoOutput | Multiple(count: int) | Illegal | Pass

  /** The number of lit slots. */
  function CountOn(s: seq<bool>): (n: nat)
    ensures n <= |s|
  {
    if s == [] then 0 else CountOn(s[..|s| - 1]) + (if s[|s| - 1] then 1 else 0)
  }

  /** The index of the last lit slot, or -1 when no slot is lit. */
  function LastOn(s: seq<bool>): (k: int)
    ensures -1 <= k < |s|
    ensures k >= 0 ==> s[k]
    ensures forall j :: k < j < |s| ==> !s[j]
  {
    if s == [] then -1
    else if s[|s| - 1] then |s| - 1
    else LastOn(s[..|s| - 1])
  }

  /** The lit slots, as a set of indices. */
  function LitSlots(s: seq<bool>): set<int>
  {
    set i | 0 <= i < |s| && s[i]
  }

  /** CountOn counts exactly the lit slots. */
  lemma {:induction false} CountOnIsLitSlots(s: seq<bool>)
    ensures CountOn(s) == |LitSlots(s)|
  {
    if s != [] {
      var n := |s| - 1;
      CountOnIsLitSlots(s[..n]);
      var before := LitSlots(s[..n]);
      if s[n] {
        assert LitSlots(s) == before + {n};
        assert n !in before;
      } else {
        assert LitSlots(s) == before;
      }
    }
  }

  /**
   The loop of VerificationTask.tick over the output array: onCount ends as
   the number of lit slots and outIndex as the last lit index (or -1).
   */
  method Tally(output: array<bool>) returns (onCount: nat, outIndex: int)
    ensures onCount == CountOn(output[..]) == |LitSlots(output[..])|
    ensures outIndex == LastOn(output[..])
    ensures -1 <= outIndex < output.Length
    ensures onCount == 0 <==> outIndex == -1
  {
    onCount := 0;
    outIndex := -1;
    for i := 0 to output.Length
      invariant onCount == CountOn(output[..i])
      invariant outIndex == LastOn(output[..i])
    {
      assert output[..i + 1][..i] == output[..i];
      if output[i] {
        onCount := onCount + 1;
        outIndex := i;
      }
    }
    assert output[..output.Length] == output[..];
    CountOnIsLitSlots(output[..]);
    if outIndex == -1 {
      assert LitSlots(output[..]) == {};
    } else {
      assert outIndex in LitSlots(output[..]);
    }
  }

  /**
   The verdict chain: no lit slot, more than one, the single lit slot naming
   a column whose top cell (row 0) is taken, or a pass. The board is only
   indexed at outIndex when exactly one slot is lit, and then outIndex is a
   column.
   */
  function Classify(onCount: nat, outIndex: int, gameState: seq<seq<int>>): (v: Verdict)
    requires IsBoard(gameState)
    requires onCount == 1 ==> 0 <= outIndex < COLS
    ensures v == NoOutput <==> onCount == 0
    ensures v.Multiple? <==> onCount > 1
    ensures v.Multiple? ==> v.count == onCount
    ensures v == Illegal <==> onCount == 1 && gameState[0][outIndex] != 0
    ensures v == Pass <==> onCount == 1 && gameState[0][outIndex] == 0
  {
    if onCount == 0 then NoOutput
    else if onCount > 1 then Multiple(onCount)
    else if gameState[0][outIndex] != 0 then Illegal
    else Pass
  }

  /** The verdict a task reaches for a given reading of the seven output slots. */
  function Evaluate(output: seq<bool>, gameState: seq<seq<int>>): Verdict
    requires |output| == COLS && IsBoard(gameState)
  {
    CountOnIsLitSlots(output);
    Classify(CountOn(output), LastOn(output), gameState)
  }

  lemma OnlyLitSlot(s: seq<bool>, i: int)
    requires |LitSlots(s)| == 1 && 0 <= i < |s| && s[i]
    ensures LitSlots(s) == {i}
  {
    assert i in LitSlots(s);
    var rest := LitSlots(s) - {i};
    assert |rest| == 0;
    assert rest == {};
  }

  /**
   Evaluate is exhaustive and each verdict says exactly what the slots show:
   NoOutput iff nothing is lit, Multiple(n) iff n > 1 slots are lit, and with
   exactly one lit slot Illegal iff that slot's column is full, else Pass.
   */
  lemma {:induction false} EvaluateClassifies(output: seq<bool>, gameState: seq<seq<int>>)
    requires |output| == COLS && IsBoard(gameState)
    ensures var v := Evaluate(output, gameState);
      && (v == NoOutput <==> forall i :: 0 <= i < COLS ==> !output[i])
      && (v.Multiple? <==> |LitSlots(output)| > 1)
      && (v.Multiple? ==> v.count == |LitSlots(output)|)
      && (v == Illegal <==> |LitSlots(output)| == 1
                             && forall i :: 0 <= i < COLS && output[i] ==> gameState[0][i] != 0)
      && (v == Pass <==> |LitSlots(output)| == 1
                          && forall i :: 0 <= i < COLS && output[i] ==> gameState[0][i] == 0)
  {
    CountOnIsLitSlots(output);
    var n := |LitSlots(output)|;
    var last := LastOn(output);
    if n == 0 {
      forall i | 0 <= i < COLS ensures !output[i] {
        assert output[i] ==> i in LitSlots(output);
      }
    } else {
      if n == 1 {
        OnlyLitSlot(output, last);
        forall i | 0 <= i < COLS && output[i] ensures i == last {
          assert i in LitSlots(output);
        }
      }
    }
  }
}
