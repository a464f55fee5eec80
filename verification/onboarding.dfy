/** The onboarding wizard: a step counter, a working profile filled one answer at a time, an
    eight-line "is this your rizz?" vote that counts yes votes per style, and the saved
    profile whose preferred style is the dominant one.

    The animation delays around each transition are not modelled; each transition is applied
    at once. */
module Onboarding {
  import opened Text

  /* ---------------------------------------------------------------------------------
     Styles and the vote table
     --------------------------------------------------------------------------------- */

  datatype Style = Smooth | Funny | Bold | Witty

  /** The key under which a style is stored. */
  function StyleName(st: Style): string {
    match st
    case Smooth => "smooth"
    case Funny => "funny"
    case Bold => "bold"
    case Witty => "witty"
  }

  /** The order of the score keys: smooth, funny, bold, witty. */
  const Keys: seq<Style> := [Smooth, Funny, Bold, Witty]

  function Rank(st: Style): (k: nat)
    ensures k < |Keys| && Keys[k] == st
  {
    match st
    case Smooth => 0
    case Funny => 1
    case Bold => 2
    case Witty => 3
  }

  datatype RizzLine = RizzLine(text: string, style: Style)

  /** The eight lines voted on, two per style. */
  const RizzLines: seq<RizzLine> := [
    RizzLine("Are you tired? You've been running through my mind all day.", Smooth),
    RizzLine("Do you play football? Because you're a keeper.", Smooth),
    RizzLine("Are you a charger? Because I'm dying without you.", Funny),
    RizzLine("Are you a loan? You've got my interest.", Funny),
    RizzLine("I never believed in love at first sight, then I saw you.", Bold),
    RizzLine("My mom told me not to talk to strangers online, but I'll make an exception for you.", Bold),
    RizzLine("Do you have Instagram? My parents told me to follow my dreams.", Witty),
    RizzLine("Angels should be in heaven. How\U{2019}d you escape?", Witty)
  ]

  /** The style of each line, in table order; RizzStylesAgree ties it to the table. */
  const RizzStyles: seq<Style> := [Smooth, Smooth, Funny, Funny, Bold, Bold, Witty, Witty]

  const LastRizzIndex: nat := |RizzStyles| - 1

  /** The style list is the table's style column. */
  lemma RizzStylesAgree()
    ensures |RizzLines| == |RizzStyles|
    ensures forall i :: 0 <= i < |RizzLines| ==> RizzLines[i].style == RizzStyles[i]
  {
  }

  /* ---------------------------------------------------------------------------------
     Scores and profile
     --------------------------------------------------------------------------------- */

  datatype Scores = Scores(smooth: nat, funny: nat, bold: nat, witty: nat)

  const NoScores: Scores := Scores(0, 0, 0, 0)

  function Score(sc: Scores, st: Style): nat {
    match st
    case Smooth => sc.smooth
    case Funny => sc.funny
    case Bold => sc.bold
    case Witty => sc.witty
  }

  function Total(sc: Scores): nat {
    sc.smooth + sc.funny + sc.bold + sc.witty
  }

  /** One more point for `st`, the other styles untouched. */
  function Bump(sc: Scores, st: Style): (sc': Scores)
    ensures Score(sc', st) == Score(sc, st) + 1
    ensures forall o :: o != st ==> Score(sc', o) == Score(sc, o)
  {
    match st
    case Smooth => sc.(smooth := sc.smooth + 1)
    case Funny => sc.(funny := sc.funny + 1)
    case Bold => sc.(bold := sc.bold + 1)
    case Witty => sc.(witty := sc.witty + 1)
  }

  datatype Profile = Profile(name: string, userGender: string, targetGender: string,
                             struggle: string, platform: string, blocker: string,
                             preferredRizz: string, rizzScore: Scores)

  const EmptyProfile: Profile := Profile("", "", "", "", "", "", "", NoScores)

  /** The text fields an answer can be saved under. */
  datatype Field = Name | UserGender | TargetGender | Struggle | Platform | Blocker | PreferredRizz

  function Get(p: Profile, f: Field): string {
    match f
    case Name => p.name
    case UserGender => p.userGender
    case TargetGender => p.targetGender
    case Struggle => p.struggle
    case Platform => p.platform
    case Blocker => p.blocker
    case PreferredRizz => p.preferredRizz
  }

  /** `{ ...p, [key]: value }`: the one field changes, every other field and the scores stay. */
  function Set(p: Profile, f: Field, v: string): (p': Profile)
    ensures Get(p', f) == v
    ensures forall g :: g != f ==> Get(p', g) == Get(p, g)
    ensures p'.rizzScore == p.rizzScore
  {
    match f
    case Name => p.(name := v)
    case UserGender => p.(userGender := v)
    case TargetGender => p.(targetGender := v)
    case Struggle => p.(struggle := v)
    case Platform => p.(platform := v)
    case Blocker => p.(blocker := v)
    case PreferredRizz => p.(preferredRizz := v)
  }

  /* ---------------------------------------------------------------------------------
     The wizard
     --------------------------------------------------------------------------------- */

  datatype Wizard = Wizard(step: int, rizzIndex: nat, profile: Profile)

  const Start: Wizard := Wizard(1, 0, EmptyProfile)

  /** `next`: one step on, nothing else changes. */
  function Next(w: Wizard): (w': Wizard)
    ensures w'.step == w.step + 1
    ensures w'.rizzIndex == w.rizzIndex && w'.profile == w.profile
  {
    w.(step := w.step + 1)
  }

  /** `saveAndNext(key, value)`: the answer is stored under its key and the wizard moves one
      step on. */
  function SaveAndNext(w: Wizard, f: Field, v: string): (w': Wizard)
    ensures w'.step == w.step + 1 && w'.rizzIndex == w.rizzIndex
    ensures Get(w'.profile, f) == v
    ensures forall g :: g != f ==> Get(w'.profile, g) == Get(w.profile, g)
    ensures w'.profile.rizzScore == w.profile.rizzScore
  {
    Next(w.(profile := Set(w.profile, f, v)))
  }

  /** The name step: Continue is disabled while the input is blank; otherwise the name is
      saved as typed (untrimmed). */
  function SubmitName(w: Wizard, input: string): (w': Wizard)
    ensures Trim(input) == [] ==> w' == w
    ensures Trim(input) != [] ==> w' == SaveAndNext(w, Name, input)
  {
    if Trim(input) == [] then w else SaveAndNext(w, Name, input)
  }

  const StyleOptions: seq<string> := ["Smooth", "Funny", "Bold", "Witty"]

  /** The style step: the chosen option is stored lower-cased, which is its score key. */
  function ChooseStyle(w: Wizard, st: Style): (w': Wizard)
    ensures w'.profile.preferredRizz == StyleName(st)
    ensures w' == SaveAndNext(w, PreferredRizz, StyleName(st))
  {
    var option := StyleOptions[Rank(st)];
    assert Lower(option) == StyleName(st);
    SaveAndNext(w, PreferredRizz, Lower(option))
  }

  /** The outcome of one vote: the next line is shown, or the profile is saved. */
  datatype VoteResult = Advanced(w: Wizard) | Finished(saved: Profile)

  /** The working profile after a vote on the current line: a yes adds one point to the
      line's style, a no changes nothing. */
  function Tallied(p: Profile, rizzIndex: nat, yes: bool): (p': Profile)
    requires rizzIndex < |RizzStyles|
    ensures !yes ==> p' == p
    ensures yes ==> p' == p.(rizzScore := Bump(p.rizzScore, RizzStyles[rizzIndex]))
  {
    if yes then p.(rizzScore := Bump(p.rizzScore, RizzStyles[rizzIndex])) else p
  }

  /** `voteRizz(yes)`, with every vote counted: below the last line the index moves on by one;
      on the last line the profile including this vote is saved. */
  function Vote(w: Wizard, yes: bool): (r: VoteResult)
    requires w.rizzIndex <= LastRizzIndex
    ensures w.rizzIndex < LastRizzIndex <==> r.Advanced?
    ensures r.Advanced? ==> r.w == Wizard(w.step, w.rizzIndex + 1, Tallied(w.profile, w.rizzIndex, yes))
                            && r.w.rizzIndex <= LastRizzIndex
    ensures r.Finished? ==> r.saved == Finish(Tallied(w.profile, w.rizzIndex, yes))
  {
    var p := Tallied(w.profile, w.rizzIndex, yes);
    if w.rizzIndex < LastRizzIndex then Advanced(Wizard(w.step, w.rizzIndex + 1, p))
    else Finished(Finish(p))
  }

  /** `voteRizz(yes)` as the component runs it: the save scheduled on the last line reads the
      profile of the render in which the vote was cast, so the last vote is not in it. */
  function VoteAsWritten(w: Wizard, yes: bool): (r: VoteResult)
    requires w.rizzIndex <= LastRizzIndex
    ensures w.rizzIndex < LastRizzIndex ==> r == Vote(w, yes)
    ensures w.rizzIndex == LastRizzIndex ==> r == Finished(Finish(w.profile))
  {
    if w.rizzIndex < LastRizzIndex then Vote(w, yes) else Finished(Finish(w.profile))
  }

  /* ---------------------------------------------------------------------------------
     Dominant style
     --------------------------------------------------------------------------------- */

  /** The index `reduce((a, b) => s[a] > s[b] ? a : b)` settles on: the accumulator is kept
      only while it strictly beats the next key. It holds a maximal score, and every later key
      scores strictly less. */
  function ReduceIndex(sc: Scores, keys: seq<Style>): (k: nat)
    requires |keys| >= 1
    ensures k < |keys|
    ensures forall j :: 0 <= j < |keys| ==> Score(sc, keys[j]) <= Score(sc, keys[k])
    ensures forall j :: k < j < |keys| ==> Score(sc, keys[j]) < Score(sc, keys[k])
  {
    if |keys| == 1 then 0
    else
      var a := ReduceIndex(sc, keys[..|keys| - 1]);
      assert forall j :: 0 <= j < |keys| - 1 ==> keys[..|keys| - 1][j] == keys[j];
      if Score(sc, keys[a]) > Score(sc, keys[|keys| - 1]) then a else |keys| - 1
  }

  /** The dominant style of a score table: no style scores more. */
  function Dominant(sc: Scores): (st: Style)
    ensures forall o :: Score(sc, o) <= Score(sc, st)
  {
    var k := ReduceIndex(sc, Keys);
    assert forall o :: Score(sc, o) <= Score(sc, Keys[k]) by {
      forall o
        ensures Score(sc, o) <= Score(sc, Keys[k])
      {
        assert Keys[Rank(o)] == o;
      }
    }
    Keys[k]
  }

  /** The style has a maximal score and every style after it in key order scores less: ties
      go to the later key. */
  ghost predicate IsDominant(sc: Scores, st: Style) {
    && (forall o :: Score(sc, o) <= Score(sc, st))
    && (forall o :: Rank(o) > Rank(st) ==> Score(sc, o) < Score(sc, st))
  }

  /** The reduction finds the dominant style, and it is the only one. */
  lemma DominantIsLastMaximal(sc: Scores)
    ensures IsDominant(sc, Dominant(sc))
    ensures forall st :: IsDominant(sc, st) ==> st == Dominant(sc)
  {
    var k := ReduceIndex(sc, Keys);
    assert Rank(Dominant(sc)) == k;
    forall o
      ensures Score(sc, o) <= Score(sc, Dominant(sc))
      ensures Rank(o) > k ==> Score(sc, o) < Score(sc, Dominant(sc))
    {
      assert Keys[Rank(o)] == o;
    }
    forall st | IsDominant(sc, st)
      ensures st == Dominant(sc)
    {
      var d := Dominant(sc);
      assert Rank(st) > Rank(d) ==> Score(sc, st) < Score(sc, d);
      assert Rank(d) > Rank(st) ==> Score(sc, d) < Score(sc, st);
      assert Rank(st) == Rank(d) ==> st == d by {
        assert Keys[Rank(st)] == st && Keys[Rank(d)] == d;
      }
    }
  }

  /** With no yes votes at all, the tie goes to the last key. */
  lemma NoVotesGiveWitty()
    ensures Dominant(NoScores) == Witty
  {
    DominantIsLastMaximal(NoScores);
    assert IsDominant(NoScores, Witty);
  }

  /** `finishOnboarding`: the saved profile is the working one with the dominant style as its
      preferred style, replacing whatever was chosen at the style step. */
  function Finish(p: Profile): (saved: Profile)
    ensures saved.preferredRizz == StyleName(Dominant(p.rizzScore))
    ensures saved.rizzScore == p.rizzScore
    ensures forall f :: f != PreferredRizz ==> Get(saved, f) == Get(p, f)
  {
    p.(preferredRizz := StyleName(Dominant(p.rizzScore)))
  }

  /* ---------------------------------------------------------------------------------
     A whole vote
     --------------------------------------------------------------------------------- */

  /** The scores after yes/no votes on the first `|votes|` lines, in table order. */
  function Tally(votes: seq<bool>): Scores
    requires |votes| <= |RizzStyles|
  {
    if |votes| == 0 then NoScores
    else
      var prev := Tally(votes[..|votes| - 1]);
      if votes[|votes| - 1] then Bump(prev, RizzStyles[|votes| - 1]) else prev
  }

  function YesCount(votes: seq<bool>): nat {
    if |votes| == 0 then 0 else YesCount(votes[..|votes| - 1]) + (if votes[|votes| - 1] then 1 else 0)
  }

  /** How many of the first `n` lines are of style `st`. */
  function LinesOfStyle(n: nat, st: Style): nat
    requires n <= |RizzStyles|
  {
    if n == 0 then 0
    else LinesOfStyle(n - 1, st) + (if RizzStyles[n - 1] == st then 1 else 0)
  }

  /** The table has exactly two lines per style, so no prefix has more. */
  lemma {:induction false} LinesOfStyleAtMostTwo(n: nat, st: Style)
    requires n <= |RizzStyles|
    ensures LinesOfStyle(n, st) <= 2
    decreases |RizzStyles| - n
  {
    if n < |RizzStyles| {
      LinesOfStyleAtMostTwo(n + 1, st);
    } else {
      assert LinesOfStyle(2, st) == if st == Smooth then 2 else 0;
      assert LinesOfStyle(4, st) == if st in {Smooth, Funny} then 2 else 0;
      assert LinesOfStyle(6, st) == if st in {Smooth, Funny, Bold} then 2 else 0;
      assert LinesOfStyle(8, st) == 2;
    }
  }

  /** Each style scores at most the number of its lines voted on, so at most 2, and the scores
      add up to the number of yes votes. */
  lemma {:induction false} TallyBounds(votes: seq<bool>)
    requires |votes| <= |RizzStyles|
    ensures forall st :: Score(Tally(votes), st) <= LinesOfStyle(|votes|, st) <= 2
    ensures Total(Tally(votes)) == YesCount(votes)
  {
    forall st ensures LinesOfStyle(|votes|, st) <= 2 {
      LinesOfStyleAtMostTwo(|votes|, st);
    }
    if |votes| > 0 {
      TallyBounds(votes[..|votes| - 1]);
    }
  }

  /** Voting from line `|done|` on, after the votes `done` have been tallied. */
  function RunVotes(w: Wizard, votes: seq<bool>): VoteResult
    requires w.rizzIndex + |votes| == |RizzStyles|
    decreases |votes|
  {
    if |votes| == 0 then Advanced(w)
    else
      match Vote(w, votes[0])
      case Advanced(w') => RunVotes(w', votes[1..])
      case Finished(saved) => Finished(saved)
  }

  /** The same run with the component's own last step. */
  function RunVotesAsWritten(w: Wizard, votes: seq<bool>): VoteResult
    requires w.rizzIndex + |votes| == |RizzStyles|
    decreases |votes|
  {
    if |votes| == 0 then Advanced(w)
    else
      match VoteAsWritten(w, votes[0])
      case Advanced(w') => RunVotesAsWritten(w', votes[1..])
      case Finished(saved) => Finished(saved)
  }

  /** Tallying one more vote extends the tally of the earlier ones. */
  lemma TallySnoc(p: Profile, done: seq<bool>, v: bool)
    requires |done| < |RizzStyles| && p.rizzScore == Tally(done)
    ensures Tallied(p, |done|, v).rizzScore == Tally(done + [v])
  {
    assert (done + [v])[..|done|] == done;
  }

  lemma {:induction false} RunVotesFrom(w: Wizard, done: seq<bool>, votes: seq<bool>)
    requires |done| == w.rizzIndex && |done| + |votes| == |RizzStyles| && |votes| >= 1
    requires w.profile.rizzScore == Tally(done)
    ensures RunVotes(w, votes) == Finished(Finish(w.profile.(rizzScore := Tally(done + votes))))
    decreases |votes|
  {
    var v := votes[0];
    var p := Tallied(w.profile, w.rizzIndex, v);
    TallySnoc(w.profile, done, v);
    if |votes| == 1 {
      assert RunVotes(w, votes) == Finished(Finish(p));
      assert done + votes == done + [v];
    } else {
      var w' := Wizard(w.step, w.rizzIndex + 1, p);
      assert RunVotes(w, votes) == RunVotes(w', votes[1..]);
      RunVotesFrom(w', done + [v], votes[1..]);
      assert done + [v] + votes[1..] == done + votes;
    }
  }

  lemma {:induction false} RunVotesAsWrittenFrom(w: Wizard, done: seq<bool>, init: seq<bool>, last: bool)
    requires |done| == w.rizzIndex && |done| + |init| + 1 == |RizzStyles|
    requires w.profile.rizzScore == Tally(done)
    ensures RunVotesAsWritten(w, init + [last])
            == Finished(Finish(w.profile.(rizzScore := Tally(done + init))))
    decreases |init|
  {
    if init == [] {
      assert RunVotesAsWritten(w, [last]) == Finished(Finish(w.profile));
      assert done + init == done;
    } else {
      var v := init[0];
      var p := Tallied(w.profile, w.rizzIndex, v);
      TallySnoc(w.profile, done, v);
      var w' := Wizard(w.step, w.rizzIndex + 1, p);
      assert init + [last] == [v] + (init[1..] + [last]);
      AsWrittenStep(w, v, init[1..] + [last]);
      RunVotesAsWrittenFrom(w', done + [v], init[1..], last);
      assert done + [v] + init[1..] == done + init;
    }
  }

  /** A vote below the last line moves on to the next line with the vote tallied. */
  lemma AsWrittenStep(w: Wizard, v: bool, rest: seq<bool>)
    requires w.rizzIndex < LastRizzIndex && w.rizzIndex + 1 + |rest| == |RizzStyles|
    ensures RunVotesAsWritten(w, [v] + rest)
            == RunVotesAsWritten(Wizard(w.step, w.rizzIndex + 1, Tallied(w.profile, w.rizzIndex, v)), rest)
  {
    assert ([v] + rest)[1..] == rest;
  }

  /** Eight votes from the first line: the saved profile is the working one with every vote
      tallied and the dominant style as its preferred style. */
  lemma FullVoteSavesDominant(w: Wizard, votes: seq<bool>)
    requires w.rizzIndex == 0 && w.profile.rizzScore == NoScores && |votes| == |RizzStyles|
    ensures var saved := w.profile.(rizzScore := Tally(votes), preferredRizz := StyleName(Dominant(Tally(votes))));
            RunVotes(w, votes) == Finished(saved)
            && (forall st :: Score(saved.rizzScore, st) <= 2)
            && Total(saved.rizzScore) == YesCount(votes)
  {
    RunVotesFrom(w, [], votes);
    assert [] + votes == votes;
    TallyBounds(votes);
  }

  /** As written, the last vote is lost: yes on the first line and on the last line only
      should tie smooth and witty (witty wins the tie), but the saved profile has smooth. */
  lemma LastVoteLost(w: Wizard)
    requires w.rizzIndex == 0 && w.profile.rizzScore == NoScores
    ensures var votes := [true, false, false, false, false, false, false, true];
            && RunVotes(w, votes).saved.preferredRizz == "witty"
            && RunVotesAsWritten(w, votes).saved.preferredRizz == "smooth"
  {
    var votes := [true, false, false, false, false, false, false, true];
    FullVoteSavesDominant(w, votes);
    assert Tally(votes) == Scores(1, 0, 0, 1);
    DominantIsLastMaximal(Scores(1, 0, 0, 1));
    assert IsDominant(Scores(1, 0, 0, 1), Witty);
    assert votes == votes[..7] + [votes[7]];
    RunVotesAsWrittenFrom(w, [], votes[..7], votes[7]);
    assert [] + votes[..7] == votes[..7];
    assert Tally(votes[..7]) == Scores(1, 0, 0, 0);
    DominantIsLastMaximal(Scores(1, 0, 0, 0));
    assert IsDominant(Scores(1, 0, 0, 0), Smooth);
  }
}
