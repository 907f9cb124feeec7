/** The frame oracle of the painting journeys: every recorded frame draws the target either in
    its ordinary or in its painting representation. */
module FrameContinuity {

  datatype Frame = Frame(ordinary: seq<string>, painting: seq<string>, navigatorDraws: nat)

  function Filter(frames: seq<Frame>, keep: Frame -> bool): (r: seq<Frame>)
    ensures r == [] <==> forall i | 0 <= i < |frames| :: !keep(frames[i])
  {
    if frames == [] then []
    else
      (if keep(frames[0]) then [frames[0]] else []) + Filter(frames[1..], keep)
  }

  /** The expectations on a recording: more than one frame, none without the target, none with
      both representations, and the navigator drawn in each. */
  predicate Complete(frames: seq<Frame>) {
    && |frames| > 1
    && Filter(frames, (f: Frame) => |f.ordinary| + |f.painting| == 0) == []
    && Filter(frames, (f: Frame) => |f.ordinary| > 0 && |f.painting| > 0) == []
    && forall i | 0 <= i < |frames| :: frames[i].navigatorDraws > 0
  }

  predicate Painted(f: Frame) {
    |f.painting| > 0
  }

  /** The neighbouring frames between which the representation changes. */
  function Switches(frames: seq<Frame>): nat {
    if |frames| < 2 then 0
    else Switches(frames[..|frames| - 1]) + if Painted(frames[|frames| - 2]) != Painted(frames[|frames| - 1]) then 1 else 0
  }

  /** An accepted recording shows exactly one representation in each frame. */
  lemma CompleteShowsExactlyOne(frames: seq<Frame>)
    ensures Complete(frames) <==> |frames| > 1 && forall i | 0 <= i < |frames| ::
              (|frames[i].ordinary| > 0 <==> !Painted(frames[i])) && frames[i].navigatorDraws > 0
  {
  }

  lemma {:induction false} SwitchParity(frames: seq<Frame>)
    requires frames != []
    ensures Switches(frames) % 2 == 1 <==> Painted(frames[0]) != Painted(frames[|frames| - 1])
    ensures Switches(frames) == 0 <==> forall i | 0 <= i < |frames| :: Painted(frames[i]) == Painted(frames[0])
  {
    if |frames| > 1 {
      var front := frames[..|frames| - 1];
      SwitchParity(front);
      assert forall i | 0 <= i < |front| :: front[i] == frames[i];
    }
  }

  lemma {:induction false} SwitchExists(frames: seq<Frame>, i: nat, j: nat) returns (k: nat)
    requires i < j < |frames| && Painted(frames[i]) != Painted(frames[j])
    ensures i <= k < j && Painted(frames[k]) != Painted(frames[k + 1])
    decreases j - i
  {
    if Painted(frames[i]) != Painted(frames[i + 1]) {
      k := i;
    } else {
      k := SwitchExists(frames, i + 1, j);
    }
  }

  /** In an accepted recording that shows both representations, some frame with only the one is
      directly followed by a frame with only the other: nothing empty or doubled lies between. */
  lemma BothMeansDirectSwitch(frames: seq<Frame>)
    requires Complete(frames)
    requires exists i | 0 <= i < |frames| :: |frames[i].ordinary| > 0
    requires exists i | 0 <= i < |frames| :: |frames[i].painting| > 0
    ensures Switches(frames) > 0
    ensures exists k | 0 <= k < |frames| - 1 ::
              || (|frames[k].ordinary| > 0 && |frames[k].painting| == 0 && |frames[k + 1].ordinary| == 0 && |frames[k + 1].painting| > 0)
              || (|frames[k].ordinary| == 0 && |frames[k].painting| > 0 && |frames[k + 1].ordinary| > 0 && |frames[k + 1].painting| == 0)
  {
    CompleteShowsExactlyOne(frames);
    SwitchParity(frames);
    var i: nat :| i < |frames| && |frames[i].ordinary| > 0;
    var j: nat :| j < |frames| && |frames[j].painting| > 0;
    var k := SwitchExists(frames, if i < j then i else j, if i < j then j else i);
  }
}
