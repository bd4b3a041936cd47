/**
  The wake-word gate (nanobot/voice/wakeword.py).

  The acoustic model is outside the model: each call of `Detect` receives
  what `model.predict(frame)` returned, either a mapping from keyword to
  score (an ordered list of pairs, in the dict's iteration order) or
  something that is not a dict, and the current time.  Keyword names are
  compared after normalisation (strip, lower-case, `_` to space), over
  ASCII characters.
*/
module WakeWord {
  import opened Common

  /** `str.isspace()` on ASCII: space, tab through carriage return, and 0x1c-0x1f. */
  predicate IsSpace(c: char)
  {
    var n := c as int;
    n == 32 || 9 <= n <= 13 || 28 <= n <= 31
  }

  predicate IsUpper(c: char)
  {
    'A' <= c <= 'Z'
  }

  /** `str.lower()` on one ASCII character. */
  function Lower(c: char): (d: char)
    ensures !IsUpper(d)
    ensures IsSpace(d) <==> IsSpace(c)
  {
    if IsUpper(c) then (c as int + 32) as char else c
  }

  /** `str.lstrip()`: drops the leading whitespace. */
  function StripLeft(s: string): (r: string)
    ensures |r| <= |s|
    ensures r == [] || !IsSpace(r[0])
    ensures forall i :: 0 <= i < |s| - |r| ==> IsSpace(s[i])
  {
    if s != [] && IsSpace(s[0]) then StripLeft(s[1..]) else s
  }

  /** `str.rstrip()`: drops the trailing whitespace. */
  function StripRight(s: string): (r: string)
    ensures |r| <= |s|
    ensures r == [] || !IsSpace(r[|r| - 1])
    ensures forall i :: |r| <= i < |s| ==> IsSpace(s[i])
  {
    if s != [] && IsSpace(s[|s| - 1]) then StripRight(s[..|s| - 1]) else s
  }

  /** What `lstrip` keeps is a suffix of its input. */
  lemma {:induction false} StripLeftIsSuffix(s: string)
    ensures StripLeft(s) == s[|s| - |StripLeft(s)|..]
  {
    if s != [] && IsSpace(s[0]) {
      StripLeftIsSuffix(s[1..]);
    }
  }

  /** What `rstrip` keeps is a prefix of its input. */
  lemma {:induction false} StripRightIsPrefix(s: string)
    ensures StripRight(s) == s[..|StripRight(s)|]
  {
    if s != [] && IsSpace(s[|s| - 1]) {
      StripRightIsPrefix(s[..|s| - 1]);
    }
  }

  /** `str.strip()`. */
  function Strip(s: string): string
  {
    StripRight(StripLeft(s))
  }

  /** A string with no whitespace at either end is its own strip. */
  lemma StripTrimmed(s: string)
    requires s != [] ==> !IsSpace(s[0]) && !IsSpace(s[|s| - 1])
    ensures Strip(s) == s
  {
    assert StripLeft(s) == s;
  }

  /** What `lower()` followed by `replace("_", " ")` does to one character. */
  function FoldChar(c: char): char
  {
    if c == '_' then ' ' else Lower(c)
  }

  /** `lower()` then `replace("_", " ")`, character by character. */
  function FoldAll(t: string): (r: string)
    ensures |r| == |t|
    ensures forall i :: 0 <= i < |t| ==> r[i] == FoldChar(t[i])
  {
    if t == [] then [] else [FoldChar(t[0])] + FoldAll(t[1..])
  }

  /** Folding gives `u` when it gives `u`'s characters one by one. */
  lemma FoldAllGives(t: string, u: string)
    requires |t| == |u|
    requires forall i :: 0 <= i < |t| ==> FoldChar(t[i]) == u[i]
    ensures FoldAll(t) == u
  {
  }

  /** `_normalize_keyword`: `name.strip().lower().replace("_", " ")`. */
  function NormalizeKeyword(name: string): (r: string)
    ensures |r| == |Strip(name)|
    ensures forall i :: 0 <= i < |r| ==> r[i] != '_' && !IsUpper(r[i])
  {
    FoldAll(Strip(name))
  }

  /** Two characters that differ only in ASCII case, or are `_` and space in either order. */
  predicate SameKeyChar(c: char, d: char)
  {
    Lower(c) == Lower(d) || ((c == '_' || c == ' ') && (d == '_' || d == ' '))
  }

  /** Folding identifies exactly the characters that differ only in case or in `_` versus space. */
  lemma FoldCharIdentifies(c: char, d: char)
    ensures FoldChar(c) == FoldChar(d) <==> SameKeyChar(c, d)
  {
  }

  predicate AllSpace(s: string)
  {
    forall i :: 0 <= i < |s| ==> IsSpace(s[i])
  }

  lemma {:induction false} StripLeftSpaces(pre: string, x: string)
    requires AllSpace(pre)
    ensures StripLeft(pre + x) == StripLeft(x)
  {
    if pre != [] {
      assert (pre + x)[1..] == pre[1..] + x;
      StripLeftSpaces(pre[1..], x);
    } else {
      assert pre + x == x;
    }
  }

  lemma {:induction false} StripRightSpaces(x: string, post: string)
    requires AllSpace(post)
    ensures StripRight(x + post) == StripRight(x)
  {
    if post != [] {
      var n := |x + post|;
      assert (x + post)[..n - 1] == x + post[..|post| - 1];
      StripRightSpaces(x, post[..|post| - 1]);
    } else {
      assert x + post == x;
    }
  }

  /** Left-stripping a string with a non-space character leaves what follows it untouched. */
  lemma {:induction false} StripLeftAppend(s: string, post: string)
    requires exists i :: 0 <= i < |s| && !IsSpace(s[i])
    ensures StripLeft(s + post) == StripLeft(s) + post
  {
    if IsSpace(s[0]) {
      assert (s + post)[1..] == s[1..] + post;
      var i :| 0 <= i < |s| && !IsSpace(s[i]);
      assert !IsSpace(s[1..][i - 1]);
      StripLeftAppend(s[1..], post);
    }
  }

  /** Surrounding whitespace does not change the normalised keyword. */
  lemma NormalizeIgnoresSurroundingSpace(pre: string, s: string, post: string)
    requires AllSpace(pre) && AllSpace(post)
    ensures NormalizeKeyword(pre + s + post) == NormalizeKeyword(s)
  {
    assert pre + s + post == pre + (s + post);
    StripLeftSpaces(pre, s + post);
    if exists i :: 0 <= i < |s| && !IsSpace(s[i]) {
      StripLeftAppend(s, post);
      StripRightSpaces(StripLeft(s), post);
    } else {
      StripLeftSpaces(s, post);
      StripLeftIsSuffix(s);
      StripLeftIsSuffix(post);
      assert StripLeft(s) == [];
      assert StripLeft(post) == [];
    }
    assert Strip(pre + s + post) == Strip(s);
  }

  /**
    Two keywords normalise equal when each is whitespace around a core that
    neither starts nor ends with whitespace, and the two cores differ only in
    ASCII case and in `_` versus space at the same positions.  The condition
    on the cores is needed: an `_` at either end of a core is not stripped
    (see `EdgeUnderscoreDiffers`).
  */
  lemma NormalizeEquivalent(pre1: string, a: string, post1: string, pre2: string, b: string, post2: string)
    requires AllSpace(pre1) && AllSpace(post1) && AllSpace(pre2) && AllSpace(post2)
    requires |a| == |b|
    requires forall i :: 0 <= i < |a| ==> SameKeyChar(a[i], b[i])
    requires a != [] ==> !IsSpace(a[0]) && !IsSpace(a[|a| - 1])
    requires b != [] ==> !IsSpace(b[0]) && !IsSpace(b[|b| - 1])
    ensures NormalizeKeyword(pre1 + a + post1) == NormalizeKeyword(pre2 + b + post2)
  {
    NormalizeIgnoresSurroundingSpace(pre1, a, post1);
    NormalizeIgnoresSurroundingSpace(pre2, b, post2);
    StripTrimmed(a);
    StripTrimmed(b);
    forall i | 0 <= i < |a|
      ensures FoldChar(a[i]) == FoldChar(b[i])
    {
      FoldCharIdentifies(a[i], b[i]);
    }
  }

  /** The wake word `"Hey_Nano "` matches a model keyword `"hey nano"`. */
  lemma HeyNanoExample()
    ensures NormalizeKeyword("Hey_Nano ") == NormalizeKeyword("hey nano") == "hey nano"
  {
    assert "Hey_Nano "[..8] == "Hey_Nano";
    assert StripRight("Hey_Nano ") == StripRight("Hey_Nano");
    StripTrimmed("Hey_Nano");
    StripTrimmed("hey nano");
    HeyNanoFolds();
  }

  /** Folding `"Hey_Nano"` and `"hey nano"` gives `"hey nano"`. */
  lemma HeyNanoFolds()
    ensures FoldAll("Hey_Nano") == "hey nano" && FoldAll("hey nano") == "hey nano"
  {
    FoldAllGives("Hey_Nano", "hey nano");
    FoldAllGives("hey nano", "hey nano");
  }

  /**
    Normalisation is not idempotent: an underscore at either end becomes a
    space that only a second pass strips.
  */
  lemma NormalizeNotIdempotent()
    ensures NormalizeKeyword("_hey") == " hey"
    ensures NormalizeKeyword(NormalizeKeyword("_hey")) == "hey"
  {
    assert Strip("_hey") == "_hey";
    assert StripLeft(" hey") == "hey";
    assert Strip(" hey") == "hey";
  }

  /**
    `_` and space at the same position do not always normalise alike: at
    the start of a keyword the space is stripped and the `_` is not.
  */
  lemma EdgeUnderscoreDiffers()
    ensures NormalizeKeyword("_hey") != NormalizeKeyword(" hey")
    ensures forall i :: 0 <= i < 4 ==> SameKeyChar("_hey"[i], " hey"[i])
  {
    NormalizeNotIdempotent();
  }

  /** What `model.predict` returned: a dict (its pairs in iteration order) or anything else. */
  datatype Predictions = Scores(entries: seq<(string, real)>) | Malformed

  /** The keys of a prediction mapping, in iteration order. */
  function Keys(entries: seq<(string, real)>): seq<string>
  {
    seq(|entries|, i requires 0 <= i < |entries| => entries[i].0)
  }

  /** A dict never repeats a key. */
  predicate DistinctKeys(entries: seq<(string, real)>)
  {
    forall i, j :: 0 <= i < j < |entries| ==> entries[i].0 != entries[j].0
  }

  /** The normalised keys, in iteration order: the keys of `normalized_keys` before merging. */
  function NormalizedKeys(entries: seq<(string, real)>): (ns: seq<string>)
    ensures |ns| == |entries|
  {
    seq(|entries|, i requires 0 <= i < |entries| => NormalizeKeyword(entries[i].0))
  }

  /** The last position of `target` in `names`. */
  function LastIndexOf(names: seq<string>, target: string): (r: Option<nat>)
    ensures r.Some? ==>
      && r.value < |names|
      && names[r.value] == target
      && forall j :: r.value < j < |names| ==> names[j] != target
    ensures r.None? ==> target !in names
    decreases |names|
  {
    if names == [] then None
    else if names[|names| - 1] == target then Some(|names| - 1)
    else LastIndexOf(names[..|names| - 1], target)
  }

  /**
    `_target_keywords`: nothing for an empty mapping; the one key kept for
    the normalised wake word when some key normalises to it; otherwise
    every key, in order.
  */
  function TargetKeywords(wakeWord: string, entries: seq<(string, real)>): (r: seq<string>)
    ensures entries == [] ==> r == []
    ensures |r| <= |entries|
  {
    if entries == [] then []
    else
      match LastIndexOf(NormalizedKeys(entries), NormalizeKeyword(wakeWord))
      case Some(i) => [entries[i].0]
      case None => Keys(entries)
  }

  /**
    The selection `_target_keywords` makes: when some key normalises to the
    normalised wake word, exactly one key, the last such key, since later
    keys overwrite earlier ones in `{_normalize_keyword(k): k for k in keys}`;
    otherwise all keys in order.  Every key returned is a predicted key.
  */
  lemma TargetKeywordsSelection(wakeWord: string, entries: seq<(string, real)>)
    ensures var r := TargetKeywords(wakeWord, entries);
      forall k :: k in r ==> k in Keys(entries)
    ensures var r, ns, target := TargetKeywords(wakeWord, entries), NormalizedKeys(entries), NormalizeKeyword(wakeWord);
      if target in ns then
        && |r| == 1
        && exists i :: 0 <= i < |entries| && r[0] == entries[i].0 && ns[i] == target
             && forall j :: i < j < |entries| ==> ns[j] != target
      else r == Keys(entries)
  {
    var ns, target := NormalizedKeys(entries), NormalizeKeyword(wakeWord);
    if entries != [] {
      match LastIndexOf(ns, target)
      case Some(i) =>
        assert entries[i].0 == Keys(entries)[i];
      case None =>
    }
  }

  /** `predictions.get(key, 0.0)`. */
  function Score(entries: seq<(string, real)>, key: string): real
  {
    if entries == [] then 0.0
    else if entries[0].0 == key then entries[0].1
    else Score(entries[1..], key)
  }

  /** In a dict, looking up one of its keys gives that key's score. */
  lemma {:induction false} ScoreOfKey(entries: seq<(string, real)>, i: nat)
    requires DistinctKeys(entries) && i < |entries|
    ensures Score(entries, entries[i].0) == entries[i].1
  {
    if i > 0 {
      assert entries[0].0 != entries[i].0;
      assert entries[1..][i - 1] == entries[i];
      ScoreOfKey(entries[1..], i - 1);
    }
  }

  /** The wake-word configuration that the gate reads (model paths left out). */
  datatype WakeWordConfig = WakeWordConfig(wakeWord: string, threshold: real, cooldownS: real)

  /** The predictions are a dict in which some target keyword scores at least the threshold. */
  predicate Qualifies(cfg: WakeWordConfig, p: Predictions)
  {
    p.Scores? && AnyQualifies(TargetKeywords(cfg.wakeWord, p.entries), p.entries, cfg.threshold)
  }

  /**
    Whether `detect` fires, given the last trigger time: the cooldown has
    elapsed and the predictions qualify.
  */
  predicate Fires(cfg: WakeWordConfig, lastTrigger: real, p: Predictions, now: real)
  {
    now - lastTrigger >= cfg.cooldownS && Qualifies(cfg, p)
  }

  /** Some key of `keys` scores at least `threshold`. */
  predicate AnyQualifies(keys: seq<string>, entries: seq<(string, real)>, threshold: real)
  {
    keys != [] && (Score(entries, keys[0]) >= threshold || AnyQualifies(keys[1..], entries, threshold))
  }

  lemma {:induction false} AnyQualifiesIff(keys: seq<string>, entries: seq<(string, real)>, threshold: real)
    ensures AnyQualifies(keys, entries, threshold) <==>
      exists i :: 0 <= i < |keys| && Score(entries, keys[i]) >= threshold
  {
    if keys != [] {
      AnyQualifiesIff(keys[1..], entries, threshold);
      if Score(entries, keys[0]) < threshold {
        forall i | 0 < i < |keys|
          ensures Score(entries, keys[i]) == Score(entries, keys[1..][i - 1])
        {
        }
      } else {
        assert Score(entries, keys[0]) >= threshold;
      }
    }
  }

  /**
    The gate in terms of the raw scores: outside the cooldown, it fires on
    the score of the last key matching the wake word when one matches, and
    on any score otherwise.
  */
  lemma FiresOnScores(cfg: WakeWordConfig, lastTrigger: real, entries: seq<(string, real)>, now: real)
    requires DistinctKeys(entries)
    ensures var target := NormalizeKeyword(cfg.wakeWord);
      Fires(cfg, lastTrigger, Scores(entries), now) <==>
        && now - lastTrigger >= cfg.cooldownS
        && match LastIndexOf(NormalizedKeys(entries), target)
           case Some(i) => entries[i].1 >= cfg.threshold
           case None => exists i :: 0 <= i < |entries| && entries[i].1 >= cfg.threshold
  {
    var target := NormalizeKeyword(cfg.wakeWord);
    var ts := TargetKeywords(cfg.wakeWord, entries);
    AnyQualifiesIff(ts, entries, cfg.threshold);
    match LastIndexOf(NormalizedKeys(entries), target)
    case Some(i) =>
      assert ts == [entries[i].0];
      ScoreOfKey(entries, i);
    case None =>
      if entries != [] {
        assert ts == Keys(entries);
      }
      forall i | 0 <= i < |entries|
        ensures Score(entries, entries[i].0) == entries[i].1 && entries[i].0 in ts
      {
        ScoreOfKey(entries, i);
        assert Keys(entries)[i] == entries[i].0;
      }
  }

  /** `WakeWordDetector`: the model handle is left out, the trigger time is kept. */
  class WakeWordDetector {
    const config: WakeWordConfig
    var lastTrigger: real

    constructor(config: WakeWordConfig)
      ensures this.config == config && lastTrigger == 0.0
    {
      this.config := config;
      lastTrigger := 0.0;
    }

    /**
      `detect`: no trigger for a non-dict or inside the cooldown; otherwise
      the first target keyword at or above the threshold fires and records
      `now` as the last trigger.
    */
    method Detect(p: Predictions, now: real) returns (fired: bool)
      modifies this`lastTrigger
      ensures fired == Fires(config, old(lastTrigger), p, now)
      ensures lastTrigger == if fired then now else old(lastTrigger)
    {
      if !p.Scores? {
        return false;
      }
      if now - lastTrigger < config.cooldownS {
        return false;
      }
      var keys := TargetKeywords(config.wakeWord, p.entries);
      for i := 0 to |keys|
        invariant AnyQualifies(keys, p.entries, config.threshold) == AnyQualifies(keys[i..], p.entries, config.threshold)
      {
        assert keys[i..][0] == keys[i] && keys[i..][1..] == keys[i + 1..];
        if Score(p.entries, keys[i]) >= config.threshold {
          lastTrigger := now;
          return true;
        }
      }
      assert keys[|keys|..] == [];
      return false;
    }
  }

  /**
    The results of successive `detect` calls, starting from the trigger time
    `last`; each call is given as whether its predictions qualify and its time.
  */
  function Triggers(cooldown: real, last: real, calls: seq<(bool, real)>): (fired: seq<bool>)
    ensures |fired| == |calls|
    decreases |calls|
  {
    if calls == [] then []
    else
      var f := calls[0].1 - last >= cooldown && calls[0].0;
      [f] + Triggers(cooldown, if f then calls[0].1 else last, calls[1..])
  }

  /**
    A `detect` call is the first step of the replay: its result is `Fires`,
    which `WakeWordDetector.Detect` returns, and the replay goes on from
    the trigger time `Detect` leaves behind.
  */
  lemma TriggersStep(cfg: WakeWordConfig, last: real, p: Predictions, now: real, calls: seq<(bool, real)>)
    ensures var f := Fires(cfg, last, p, now);
      Triggers(cfg.cooldownS, last, [(Qualifies(cfg, p), now)] + calls)
        == [f] + Triggers(cfg.cooldownS, if f then now else last, calls)
  {
  }

  /** With a non-negative cooldown, every trigger comes at least a cooldown after the starting trigger time. */
  lemma {:induction false} TriggerAfterLast(cooldown: real, last: real, calls: seq<(bool, real)>, j: nat)
    requires cooldown >= 0.0
    requires j < |calls| && Triggers(cooldown, last, calls)[j]
    ensures calls[j].1 - last >= cooldown
    decreases j
  {
    var f := calls[0].1 - last >= cooldown && calls[0].0;
    if j > 0 {
      var next := if f then calls[0].1 else last;
      assert Triggers(cooldown, last, calls)[j] == Triggers(cooldown, next, calls[1..])[j - 1];
      TriggerAfterLast(cooldown, next, calls[1..], j - 1);
    }
  }

  /**
    The cooldown spacing law: with a non-negative cooldown, any two triggers
    in a run of `detect` calls are at least a cooldown apart.
  */
  lemma {:induction false} CooldownSpacing(cooldown: real, last: real, calls: seq<(bool, real)>, i: nat, j: nat)
    requires cooldown >= 0.0
    requires i < j < |calls|
    requires Triggers(cooldown, last, calls)[i] && Triggers(cooldown, last, calls)[j]
    ensures calls[j].1 - calls[i].1 >= cooldown
    decreases i
  {
    var f := calls[0].1 - last >= cooldown && calls[0].0;
    var next := if f then calls[0].1 else last;
    assert Triggers(cooldown, last, calls)[j] == Triggers(cooldown, next, calls[1..])[j - 1];
    if i == 0 {
      assert Triggers(cooldown, last, calls)[0] == f;
      assert next == calls[0].1;
      TriggerAfterLast(cooldown, next, calls[1..], j - 1);
    } else {
      assert Triggers(cooldown, last, calls)[i] == Triggers(cooldown, next, calls[1..])[i - 1];
      CooldownSpacing(cooldown, next, calls[1..], i - 1, j - 1);
    }
  }
}
