/**
 * The recognition closure of `CameraViewController.captureOutput`: the
 * strings the text recogniser reports for one video frame become one
 * overlay line of Korean numerals, and the overlay is refreshed at most
 * once a second.
 */
module Recognition {
  import opened Wrappers
  import opened Sequences
  import opened Numerals

  /** The separator the closure joins with, splits on and joins with again. */
  const Sep: string := ", "

  /** The best candidate string of one recognised observation, if it has one. */
  type Observation = Option<string>

  /** `compactMap { $0.topCandidates(1).first?.string }`: the candidate strings, in order, observations without one skipped. */
  function TopStrings(observations: seq<Observation>): (r: seq<string>)
    ensures |r| <= |observations|
    decreases |observations|
  {
    if observations == [] then []
    else
      var rest := TopStrings(observations[1..]);
      match observations[0]
      case Some(t) => [t] + rest
      case None => rest
  }

  /**
   * `texts.split(separator: ", ").filter { ^[0-9]+$ }` where `texts` is the
   * candidates joined with `", "`: the digit-only pieces, in order.
   */
  function Tokens(texts: seq<string>): (r: seq<string>)
    ensures forall i :: 0 <= i < |r| ==> IsAllDigits(r[i])
    ensures IsSubsequence(r, Split(JoinWith(texts, Sep), Sep))
    ensures forall p :: p in Split(JoinWith(texts, Sep), Sep) && IsAllDigits(p) ==> p in r
    ensures forall p :: multiset(r)[p] == if IsAllDigits(p) then multiset(Split(JoinWith(texts, Sep), Sep))[p] else 0
  {
    FilterSubsequence(Split(JoinWith(texts, Sep), Sep), IsAllDigits);
    FilterKeepsEvery(Split(JoinWith(texts, Sep), Sep), IsAllDigits);
    FilterCount(Split(JoinWith(texts, Sep), Sep), IsAllDigits);
    Filter(Split(JoinWith(texts, Sep), Sep), IsAllDigits)
  }

  /** `Int(number) ?? 0`. */
  function ParseOrZero(t: string): (r: nat)
    ensures r <= IntMax
    ensures IsAllDigits(t) && Value(t) <= IntMax ==> r == Value(t)
    ensures IsAllDigits(t) && Value(t) > IntMax ==> r == 0
  {
    ParseInt(t).GetOr(0)
  }

  /** `numbersInText.map { numberToKorean(Int($0) ?? 0) }`. */
  function Conversions(tokens: seq<string>, toKorean: Speller): (r: seq<string>)
    ensures |r| == |tokens|
    ensures forall i :: 0 <= i < |tokens| && IsAllDigits(tokens[i]) ==>
      r[i] == toKorean(if Value(tokens[i]) <= IntMax then Value(tokens[i]) else 0)
  {
    var r := seq(|tokens|, i requires 0 <= i < |tokens| => toKorean(ParseOrZero(tokens[i])));
    assert forall i :: 0 <= i < |tokens| ==> r[i] == toKorean(ParseOrZero(tokens[i]));
    r
  }

  /** `koreanNumbers`: the line the overlay would show for this frame. */
  function DisplayText(observations: seq<Observation>, toKorean: Speller): (r: string)
    ensures Tokens(TopStrings(observations)) == [] ==> r == ""
  {
    JoinWith(Conversions(Tokens(TopStrings(observations)), toKorean), Sep)
  }

  /** Each text split on its own, the pieces concatenated in text order. */
  function SplitEach(texts: seq<string>): seq<string>
    decreases |texts|
  {
    if texts == [] then [] else Split(texts[0], Sep) + SplitEach(texts[1..])
  }

  /**
   * Before the end of `a`, the separator occurs in `a + ", " + b` exactly
   * where it occurs in `a`: no occurrence straddles the join, because the
   * separator's first character is not its last.
   */
  lemma OccurrenceBeforeJoin(a: string, b: string, j: nat)
    requires j < |a|
    ensures OccursAt(a + Sep + b, Sep, j) == OccursAt(a, Sep, j)
  {
    var s := a + Sep + b;
    if j + |Sep| <= |a| {
      assert s[j..j + |Sep|] == a[j..j + |Sep|];
    } else {
      assert s[j + 1] == ',' && Sep[1] == ' ';
    }
  }

  /** The first cut in `a + ", " + b` is the first cut in `a`, or the join itself when `a` has none. */
  lemma FirstCutOfJoin(a: string, b: string)
    ensures FindFrom(a, Sep, 0).None? ==> FindFrom(a + Sep + b, Sep, 0) == Some(|a|)
    ensures FindFrom(a, Sep, 0).Some? ==> FindFrom(a + Sep + b, Sep, 0) == FindFrom(a, Sep, 0)
  {
    var s := a + Sep + b;
    forall j | 0 <= j < |a|
      ensures OccursAt(s, Sep, j) == OccursAt(a, Sep, j)
    {
      OccurrenceBeforeJoin(a, b, j);
    }
    FindFromLeftmost(a, Sep, 0);
    match FindFrom(a, Sep, 0)
    case None =>
      assert s[|a|..|a| + |Sep|] == Sep;
      FindFromIs(s, Sep, 0, |a|);
    case Some(k) =>
      assert s[k..k + |Sep|] == a[k..k + |Sep|];
      FindFromIs(s, Sep, 0, k);
  }

  /** Cutting `a + ", " + b` before the end of `a` leaves `a`'s prefix and the rest of the join. */
  lemma JoinSlices(a: string, b: string, k: nat)
    requires k + |Sep| <= |a|
    ensures (a + Sep + b)[..k] == a[..k]
    ensures (a + Sep + b)[k + |Sep|..] == a[k + |Sep|..] + Sep + b
  {
  }

  /** Cutting `a + ", " + b` cuts `a` and `b` apart and then each as on its own. */
  lemma {:induction false} PiecesOfJoin(a: string, b: string)
    ensures Pieces(a + Sep + b, Sep) == Pieces(a, Sep) + Pieces(b, Sep)
    decreases |a|
  {
    var s := a + Sep + b;
    FindFromLeftmost(a, Sep, 0);
    match FindFrom(a, Sep, 0)
    case None =>
      FirstCutOfJoin(a, b);
      PiecesAtCut(s, Sep, |a|);
      assert s[..|a|] == a;
      assert s[|a| + |Sep|..] == b;
    case Some(k) =>
      var rest := a[k + |Sep|..];
      assert Pieces(s, Sep) == [a[..k]] + Pieces(rest + Sep + b, Sep) by {
        FirstCutOfJoin(a, b);
        JoinSlices(a, b, k);
        PiecesAtCut(s, Sep, k);
      }
      assert Pieces(a, Sep) == [a[..k]] + Pieces(rest, Sep) by {
        PiecesAtCut(a, Sep, k);
      }
      PiecesOfJoin(rest, b);
  }

  /**
   * Joining the observations with `", "` and splitting again gives the
   * pieces of each observation in turn: an observation that itself holds
   * `", "` contributes several pieces, an empty one none.
   */
  lemma {:induction false} SplitOfJoin(texts: seq<string>)
    ensures Split(JoinWith(texts, Sep), Sep) == SplitEach(texts)
    decreases |texts|
  {
    if texts == [] {
      assert Pieces("", Sep) == [""];
    } else if |texts| == 1 {
      assert SplitEach(texts) == Split(texts[0], Sep) + SplitEach([]);
    } else {
      var rest := JoinWith(texts[1..], Sep);
      PiecesOfJoin(texts[0], rest);
      FilterAppend(Pieces(texts[0], Sep), Pieces(rest, Sep), NonEmpty);
      SplitOfJoin(texts[1..]);
    }
  }

  /** When no text holds the separator, splitting each changes nothing but dropping the empty ones. */
  lemma {:induction false} SplitEachOfFree(texts: seq<string>)
    requires forall i :: 0 <= i < |texts| ==> Free(texts[i], Sep)
    ensures SplitEach(texts) == Filter(texts, NonEmpty)
    decreases |texts|
  {
    if texts != [] {
      SplitFree(texts[0], Sep);
      SplitEachOfFree(texts[1..]);
    }
  }

  /**
   * When no recognised string holds `", "`, the tokens are exactly the
   * recognised strings that are digit runs, in recognition order: one
   * token per numeric observation.
   */
  lemma TokensOfFreeTexts(texts: seq<string>)
    requires forall i :: 0 <= i < |texts| ==> Free(texts[i], Sep)
    ensures Tokens(texts) == Filter(texts, IsAllDigits)
  {
    SplitOfJoin(texts);
    SplitEachOfFree(texts);
    FilterOfNonEmpty(texts);
  }

  /** Dropping empty strings first does not change which strings are digit runs. */
  lemma {:induction false} FilterOfNonEmpty(texts: seq<string>)
    ensures Filter(Filter(texts, NonEmpty), IsAllDigits) == Filter(texts, IsAllDigits)
    decreases |texts|
  {
    if texts != [] {
      FilterOfNonEmpty(texts[1..]);
    }
  }

  /** A string without a comma holds no separator. */
  lemma CommaFreeIsFree(s: string)
    requires forall i :: 0 <= i < |s| ==> s[i] != ','
    ensures Free(s, Sep)
  {
    forall i | 0 <= i <= |s|
      ensures !OccursAt(s, Sep, i)
    {
      if i < |s| {
        assert i + |Sep| <= |s| ==> s[i..i + |Sep|][0] == s[i];
      }
    }
  }

  /**
   * One observation reading two digit runs separated by `", "` yields both
   * runs as tokens: tokens are not one per observation.
   */
  lemma TwoRunsInOneObservation(a: string, b: string)
    requires IsAllDigits(a) && IsAllDigits(b)
    ensures Tokens([a + Sep + b]) == [a, b]
  {
    var joined := JoinWith([a + Sep + b], Sep);
    assert joined == a + Sep + b;
    CommaFreeIsFree(a);
    CommaFreeIsFree(b);
    PiecesOfJoin(a, b);
    SplitFree(a, Sep);
    SplitFree(b, Sep);
    assert Pieces(joined, Sep) == [a, b];
    FilterKeepsAll([a, b], NonEmpty);
    FilterKeepsAll([a, b], IsAllDigits);
  }

  /** An observation reading `"12, 34"` yields the two tokens `"12"` and `"34"`. */
  lemma RetokenisesAcrossObservation()
    ensures Tokens(["12, 34"]) == ["12", "34"]
  {
    assert "12, 34" == "12" + Sep + "34";
    assert IsAllDigits("12") && IsAllDigits("34");
    TwoRunsInOneObservation("12", "34");
  }

  /** `compactMap` decides the first observation, then maps the rest. */
  lemma TopStringsCons(o: Observation, rest: seq<Observation>)
    ensures TopStrings([o] + rest) == (if o.Some? then [o.value] else []) + TopStrings(rest)
  {
    assert ([o] + rest)[1..] == rest;
  }

  /** A string is among the candidates exactly when some observation carries it. */
  lemma {:induction false} TopStringsMembers(observations: seq<Observation>)
    ensures forall t :: t in TopStrings(observations) <==> Some(t) in observations
    decreases |observations|
  {
    if observations != [] {
      TopStringsMembers(observations[1..]);
      assert observations == [observations[0]] + observations[1..];
    }
  }

  /** `compactMap` over two runs of observations is the two results one after the other. */
  lemma {:induction false} TopStringsAppend(xs: seq<Observation>, ys: seq<Observation>)
    ensures TopStrings(xs + ys) == TopStrings(xs) + TopStrings(ys)
    decreases |xs|
  {
    if xs == [] {
      assert xs + ys == ys;
    } else {
      assert xs + ys == [xs[0]] + (xs[1..] + ys);
      TopStringsCons(xs[0], xs[1..] + ys);
      TopStringsCons(xs[0], xs[1..]);
      assert xs == [xs[0]] + xs[1..];
      TopStringsAppend(xs[1..], ys);
    }
  }

  /** The candidate strings of the mixed frame below. */
  lemma MixedFrameTexts()
    ensures TopStrings([Some("12a"), Some("34"), Some(""), Some("5x6"), Some("7")]) == ["12a", "34", "", "5x6", "7"]
  {
    TopStringsCons(Some("7"), []);
    TopStringsCons(Some("5x6"), [Some("7")]);
    TopStringsCons(Some(""), [Some("5x6"), Some("7")]);
    TopStringsCons(Some("34"), [Some(""), Some("5x6"), Some("7")]);
    TopStringsCons(Some("12a"), [Some("34"), Some(""), Some("5x6"), Some("7")]);
  }

  /** Of the mixed frame's strings, `34` and `7` are digit runs. */
  lemma MixedFrameDigitRuns()
    ensures Filter(["12a", "34", "", "5x6", "7"], IsAllDigits) == ["34", "7"]
  {
    assert !IsAllDigits("12a") by { assert !IsDigit("12a"[2]); }
    assert !IsAllDigits("5x6") by { assert !IsDigit("5x6"[1]); }
    assert IsAllDigits("34") && IsAllDigits("7") && !IsAllDigits("");
    FilterCons("7", [], IsAllDigits);
    FilterCons("5x6", ["7"], IsAllDigits);
    FilterCons("", ["5x6", "7"], IsAllDigits);
    FilterCons("34", ["", "5x6", "7"], IsAllDigits);
    FilterCons("12a", ["34", "", "5x6", "7"], IsAllDigits);
  }

  /** None of the mixed frame's strings holds the separator. */
  lemma MixedFrameSeparators()
    ensures Tokens(["12a", "34", "", "5x6", "7"]) == Filter(["12a", "34", "", "5x6", "7"], IsAllDigits)
  {
    var texts := ["12a", "34", "", "5x6", "7"];
    forall i | 0 <= i < |texts|
      ensures Free(texts[i], Sep)
    {
      CommaFreeIsFree(texts[i]);
    }
    TokensOfFreeTexts(texts);
  }

  /** A frame reading `12a`, `34`, an empty string, `5x6` and `7` keeps the tokens `34` and `7`. */
  lemma MixedFrameTokens()
    ensures Tokens(TopStrings([Some("12a"), Some("34"), Some(""), Some("5x6"), Some("7")])) == ["34", "7"]
  {
    MixedFrameTexts();
    MixedFrameSeparators();
    MixedFrameDigitRuns();
  }

  /** `"34"` and `"7"` are converted as 34 and 7. */
  lemma MixedFrameConversions(toKorean: Speller)
    ensures JoinWith(Conversions(["34", "7"], toKorean), Sep) == toKorean(34) + ", " + toKorean(7)
  {
    assert Value("34") == 34 && Value("7") == 7;
  }

  /** The same frame shows the conversions of 34 and of 7, joined by `", "`. */
  lemma MixedFrameDisplay(toKorean: Speller)
    ensures DisplayText([Some("12a"), Some("34"), Some(""), Some("5x6"), Some("7")], toKorean)
      == toKorean(34) + ", " + toKorean(7)
  {
    MixedFrameTokens();
    MixedFrameConversions(toKorean);
  }

  /** Strings that are non-empty and hold no separator are what splitting their join gives back. */
  lemma {:induction false} SplitEachOfPieces(xs: seq<string>)
    requires forall i :: 0 <= i < |xs| ==> |xs[i]| > 0 && Free(xs[i], Sep)
    ensures SplitEach(xs) == xs
    decreases |xs|
  {
    if xs != [] {
      SplitFree(xs[0], Sep);
      SplitEachOfPieces(xs[1..]);
    }
  }

  /**
   * If no conversion is empty or holds `", "`, splitting the overlay line
   * on `", "` recovers the conversions one by one, in token order.
   */
  lemma DisplayTextSplitsBack(observations: seq<Observation>, toKorean: Speller)
    requires forall n: int :: 0 <= n <= IntMax ==> |toKorean(n)| > 0 && Free(toKorean(n), Sep)
    ensures Split(DisplayText(observations, toKorean), Sep) == Conversions(Tokens(TopStrings(observations)), toKorean)
  {
    var cs := Conversions(Tokens(TopStrings(observations)), toKorean);
    SplitOfJoin(cs);
    SplitEachOfPieces(cs);
  }

  /** One second, in the milliseconds of the model's clock. */
  const MinUpdateInterval: int := 1000

  /** `Date(timeIntervalSince1970: 0)`, the initial `lastUpdateTime`. */
  const Epoch: int := 0

  /** The throttle: a frame at `now` may refresh the overlay when a full second has passed since `lastUpdate`, the boundary included. */
  predicate Gate(lastUpdate: int, now: int) {
    now - lastUpdate >= MinUpdateInterval
  }

  /** Refresh times, each at least one second after the one before it, the first one at least one second after `start`. */
  ghost predicate Spaced(start: int, times: seq<int>) {
    && (|times| > 0 ==> Gate(start, times[0]))
    && forall k :: 0 < k < |times| ==> Gate(times[k - 1], times[k])
  }

  /** A refresh a full second after the last one keeps the refresh times spaced. */
  lemma SpacedAppend(start: int, times: seq<int>, t: int)
    requires Spaced(start, times)
    requires Gate(if times == [] then start else times[|times| - 1], t)
    ensures Spaced(start, times + [t])
  {
    var after := times + [t];
    forall k | 0 < k < |after|
      ensures Gate(after[k - 1], after[k])
    {
      assert after[k - 1] == times[k - 1];
      if k < |times| {
        assert after[k] == times[k];
      }
    }
  }

  class CameraViewController {
    /** `lastUpdateTime`, in milliseconds since the epoch. */
    var lastUpdateTime: int
    /** `textOverlayView.text`. */
    var overlayText: string
    /** The times at which the overlay was refreshed, oldest first. */
    ghost var publishTimes: seq<int>

    /** Refreshes are a second apart and `lastUpdateTime` is the last of them, or the epoch before the first. */
    ghost predicate Valid()
      reads this
    {
      && Spaced(Epoch, publishTimes)
      && lastUpdateTime == if publishTimes == [] then Epoch else publishTimes[|publishTimes| - 1]
    }

    constructor ()
      ensures Valid()
      ensures lastUpdateTime == Epoch && overlayText == "" && publishTimes == []
    {
      lastUpdateTime := Epoch;
      overlayText := "";
      publishTimes := [];
    }

    /** The recognition callback for one frame whose observations are `observations`, run at time `now`. */
    method ProcessBatch(observations: seq<Observation>, now: int, toKorean: Speller)
      requires Valid()
      modifies this
      ensures Valid()
      ensures Gate(old(lastUpdateTime), now) ==>
        && overlayText == DisplayText(observations, toKorean)
        && lastUpdateTime == now
        && publishTimes == old(publishTimes) + [now]
      ensures !Gate(old(lastUpdateTime), now) ==>
        && overlayText == old(overlayText)
        && lastUpdateTime == old(lastUpdateTime)
        && publishTimes == old(publishTimes)
      ensures lastUpdateTime >= old(lastUpdateTime)
    {
      var koreanNumbers := DisplayText(observations, toKorean);
      var currentTime := now;
      if Gate(lastUpdateTime, currentTime) {
        ghost var before := publishTimes;
        overlayText := koreanNumbers;
        lastUpdateTime := currentTime;
        publishTimes := publishTimes + [currentTime];
        SpacedAppend(Epoch, before, currentTime);
      }
    }
  }

  /**
   * Three frames at `t`, `t + 400 ms` and `t + 1 s` on a fresh controller:
   * the first is shown (the epoch is long past), the second is dropped and
   * the third, exactly one second after the first, is shown.
   */
  method RapidFrames(t: int, first: seq<Observation>, second: seq<Observation>, third: seq<Observation>, toKorean: Speller)
    returns (afterSecond: string, afterThird: string, last: int)
    requires t >= Epoch + MinUpdateInterval
    ensures afterSecond == DisplayText(first, toKorean)
    ensures afterThird == DisplayText(third, toKorean)
    ensures last == t + MinUpdateInterval
  {
    var c := new CameraViewController();
    c.ProcessBatch(first, t, toKorean);
    c.ProcessBatch(second, t + 400, toKorean);
    afterSecond := c.overlayText;
    c.ProcessBatch(third, t + MinUpdateInterval, toKorean);
    afterThird, last := c.overlayText, c.lastUpdateTime;
  }
}
