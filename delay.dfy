/**
 * The delay model of the typing engine: how long the engine waits before the next
 * keystroke (`getCharDelay`) and before the correcting keystroke of a typo
 * (`getBackspaceDelay`). Every `Math.random()` draw is a parameter in [0, 1).
 */
module Delay {
  import opened Chars
  import opened Randomness

  /** The settings object of an engine instance */
  datatype Settings = Settings(
    baseSpeed: real,
    letterSpeed: real,
    numberSpeed: real,
    punctuationSpeed: real,
    randomVariations: bool,
    punctuationPauses: bool,
    typingMistakes: bool,
    typingPattern: string,
    typingMode: string)

  /** `getDefaultSettings()` */
  const DEFAULT_SETTINGS: Settings :=
    Settings(50.0, 1.0, 1.2, 1.5, true, true, false, "smooth", "character")

  /**
   * The random draws one call of `getCharDelay` may consume: the sentence pause,
   * the hunt-and-peck offset, the pattern's chance test and the variation.
   */
  datatype DelayDraws = DelayDraws(pause: real, offset: real, chance: real, jitter: real)

  predicate ValidDelayDraws(d: DelayDraws) {
    IsDraw(d.pause) && IsDraw(d.offset) && IsDraw(d.chance) && IsDraw(d.jitter)
  }

  function Max(a: int, b: int): int {
    if a >= b then a else b
  }

  /** First stage: the base speed scaled by the character's class, plus the sentence pause. */
  function ClassDelay(s: Settings, c: char, d: DelayDraws): real {
    if IsLetter(c) then s.baseSpeed * s.letterSpeed
    else if IsDigit(c) then s.baseSpeed * s.numberSpeed
    else if IsPunctuation(c) then
      var b := s.baseSpeed * s.punctuationSpeed;
      if s.punctuationPauses && IsSentenceEnd(c) then b + (d.pause * 300.0 + 200.0) else b
    else s.baseSpeed
  }

  /** Second stage: the typing pattern; "smooth" and every unknown name leave the delay alone. */
  function PatternDelay(s: Settings, b: real, d: DelayDraws): real {
    if s.typingPattern == "hunt-peck" then
      var h := b + (d.offset * 150.0 + 50.0);
      if d.chance < 0.1 then h + 200.0 else h
    else if s.typingPattern == "burst" then
      var q := b * 0.4;
      if d.chance < 0.15 then q * 2.0 else q
    else b
  }

  /** Third stage: the random variation of up to 20% either way. */
  function VariedDelay(s: Settings, b: real, d: DelayDraws): real {
    if s.randomVariations then Vary(b, d.jitter) else b
  }

  /** `b += (Math.random() - 0.5) * b * 0.4` */
  function Vary(b: real, j: real): real {
    b + (j - 0.5) * b * 0.4
  }

  /** The delay before flooring and clamping */
  function RawCharDelay(s: Settings, c: char, d: DelayDraws): real {
    VariedDelay(s, PatternDelay(s, ClassDelay(s, c, d), d), d)
  }

  /**
   * `getCharDelay(c)`: an integer number of milliseconds, never below 10, that is
   * the floor of the raw delay whenever the raw delay is at least 10.
   */
  function GetCharDelay(s: Settings, c: char, d: DelayDraws): (r: int)
    ensures r >= 10
    ensures RawCharDelay(s, c, d) < 10.0 ==> r == 10
    ensures RawCharDelay(s, c, d) >= 10.0 ==> r as real <= RawCharDelay(s, c, d) < r as real + 1.0
  {
    Max(10, RawCharDelay(s, c, d).Floor)
  }

  /**
   * `getBackspaceDelay()`: the floor of 30% of the base speed plus a random part below
   * 50 that is not floored, so the result is in general not a whole number.
   */
  function GetBackspaceDelay(s: Settings, r: real): (v: real)
    ensures IsDraw(r) ==> (s.baseSpeed * 0.3).Floor as real <= v < (s.baseSpeed * 0.3).Floor as real + 50.0
  {
    (s.baseSpeed * 0.3).Floor as real + r * 50.0
  }

  /** With no variation and the smooth (or an unknown) pattern a letter waits exactly base times letter speed, floored, at least 10. */
  lemma SmoothLetterDelay(s: Settings, c: char, d: DelayDraws)
    requires IsLetter(c) && !s.randomVariations
    requires s.typingPattern != "hunt-peck" && s.typingPattern != "burst"
    ensures GetCharDelay(s, c, d) == Max(10, (s.baseSpeed * s.letterSpeed).Floor)
  {
    assert ClassDelay(s, c, d) == s.baseSpeed * s.letterSpeed;
    assert RawCharDelay(s, c, d) == s.baseSpeed * s.letterSpeed;
  }

  /** Multiplying by a draw keeps a non-negative value between 0 and itself. */
  lemma ScaleByDraw(j: real, p: real)
    requires IsDraw(j) && p >= 0.0
    ensures 0.0 <= j * p <= p
    ensures p > 0.0 ==> j * p < p
  {
  }

  /** Multiplying by a draw keeps a negative value between itself and 0. */
  lemma ScaleNegativeByDraw(j: real, p: real)
    requires IsDraw(j) && p < 0.0
    ensures p < j * p <= 0.0
  {
    ScaleByDraw(j, -p);
    assert j * (-p) == -(j * p);
  }

  lemma VaryLinear(j: real, p: real)
    ensures Vary(p, j) == 0.8 * p + 0.4 * (j * p)
  {
  }

  /** The linear core of the variation bound, with `jp` standing for the product of draw and delay. */
  lemma VaryBoundsLinear(p: real, jp: real, v: real)
    requires v == 0.8 * p + 0.4 * jp
    requires p >= 0.0 ==> 0.0 <= jp <= p && (p > 0.0 ==> jp < p)
    requires p < 0.0 ==> p < jp <= 0.0
    ensures p >= 0.0 ==> 0.8 * p <= v <= 1.2 * p
    ensures p > 0.0 ==> v < 1.2 * p
    ensures p < 0.0 ==> 1.2 * p < v <= 0.8 * p
  {
  }

  /** The variation formula on its own, for a draw `j`. */
  lemma VaryBounds(j: real, p: real)
    requires IsDraw(j)
    ensures p >= 0.0 ==> 0.8 * p <= Vary(p, j) <= 1.2 * p
    ensures p > 0.0 ==> Vary(p, j) < 1.2 * p
    ensures p < 0.0 ==> 1.2 * p < Vary(p, j) <= 0.8 * p
  {
    var jp := j * p;
    assert p >= 0.0 ==> 0.0 <= jp <= p && (p > 0.0 ==> jp < p) by {
      if p >= 0.0 { ScaleByDraw(j, p); }
    }
    assert p < 0.0 ==> p < jp <= 0.0 by {
      if p < 0.0 { ScaleNegativeByDraw(j, p); }
    }
    VaryLinear(j, p);
    VaryBoundsLinear(p, jp, Vary(p, j));
  }

  /**
   * Turning the random variation on moves the pre-floor delay by at most 20% of the
   * value it has with the variation off: down to 80% when the draw is 0, and up to
   * (but not reaching) 120%.
   */
  lemma VariationBounds(s: Settings, c: char, d: DelayDraws)
    requires s.randomVariations && IsDraw(d.jitter)
    ensures var p := RawCharDelay(s.(randomVariations := false), c, d);
            var v := RawCharDelay(s, c, d);
            (p >= 0.0 ==> 0.8 * p <= v <= 1.2 * p) &&
            (p > 0.0 ==> v < 1.2 * p) &&
            (p < 0.0 ==> 1.2 * p < v <= 0.8 * p)
  {
    var off := s.(randomVariations := false);
    assert RawCharDelay(off, c, d) == PatternDelay(s, ClassDelay(s, c, d), d);
    VaryBounds(d.jitter, PatternDelay(s, ClassDelay(s, c, d), d));
  }

  /** What each typing pattern adds to the delay of the first stage. */
  lemma PatternBounds(s: Settings, b: real, d: DelayDraws)
    requires ValidDelayDraws(d)
    ensures s.typingPattern == "hunt-peck" ==> b + 50.0 <= PatternDelay(s, b, d) < b + 400.0
    ensures s.typingPattern == "burst" ==> PatternDelay(s, b, d) == 0.4 * b || PatternDelay(s, b, d) == 0.8 * b
    ensures s.typingPattern != "hunt-peck" && s.typingPattern != "burst" ==> PatternDelay(s, b, d) == b
  {
  }

  /** With pauses on, '.', '!' and '?' wait 200 to 500 ms longer than other punctuation. */
  lemma SentencePauseBounds(s: Settings, c: char, d: DelayDraws)
    requires IsSentenceEnd(c) && s.punctuationPauses && IsDraw(d.pause)
    ensures var b := s.baseSpeed * s.punctuationSpeed;
            b + 200.0 <= ClassDelay(s, c, d) < b + 500.0
  {
    assert c == '.' || c == '!' || c == '?';
    assert !IsLetter(c) && !IsDigit(c) && IsPunctuation(c);
    var b := s.baseSpeed * s.punctuationSpeed;
    assert ClassDelay(s, c, d) == b + (d.pause * 300.0 + 200.0);
    assert 0.0 <= d.pause * 300.0 < 300.0;
  }

  /** With the default settings a letter waits between 40 and 59 ms. */
  lemma DefaultLetterDelay(c: char, d: DelayDraws)
    requires IsLetter(c) && IsDraw(d.jitter)
    ensures 40 <= GetCharDelay(DEFAULT_SETTINGS, c, d) < 60
  {
    var s := DEFAULT_SETTINGS;
    assert ClassDelay(s, c, d) == 50.0;
    assert PatternDelay(s, 50.0, d) == 50.0;
    assert RawCharDelay(s, c, d) == 40.0 + 20.0 * d.jitter;
  }

  /** With the default settings a backspace waits between 15 and 65 ms. */
  lemma DefaultBackspaceDelay(r: real)
    requires IsDraw(r)
    ensures 15.0 <= GetBackspaceDelay(DEFAULT_SETTINGS, r) < 65.0
  {
    assert (50.0 * 0.3).Floor == 15;
  }
}
