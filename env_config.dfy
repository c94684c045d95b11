/**
 * Boolean settings read from the environment (the watcher's VC_SECURE_DELETE switch).
 * The environment lookup itself is a parameter: None when the variable is unset.
 */
module EnvConfig {
  import opened Wrappers
  import opened Text

  /** The spellings that switch a setting on, after stripping and lower-casing. */
  const TruthyWords: set<string> := {"1", "true", "yes", "y", "on"}

  /** `_env_bool`: an unset variable gives the default, a set one is parsed. */
  function EnvBool(raw: Option<string>, default: bool): (b: bool)
    ensures raw.None? ==> b == default
    ensures b && raw.Some? ==> 1 <= |Strip(raw.value)| <= 4
  {
    match raw
    case None => default
    case Some(text) => Lower(Strip(text)) in TruthyWords
  }

  /** A truthy word in any ASCII case, padded with any whitespace, switches the setting on. */
  lemma EnvBoolAcceptsPadded(pre: string, word: string, post: string, default: bool)
    requires AllSpace(pre) && AllSpace(post)
    requires Lower(word) in TruthyWords
    ensures EnvBool(Some(pre + word + post), default)
  {
    assert Trimmed(word) by {
      var w := Lower(word);
      assert w == "1" || w == "true" || w == "yes" || w == "y" || w == "on";
      assert LowerChar(word[0]) == w[0] && LowerChar(word[|word| - 1]) == w[|w| - 1];
    }
    StripPadded(pre, word, post);
  }

  /**
   * Conversely, a set variable switches the setting on only if it is whitespace,
   * then a truthy word in some ASCII case, then whitespace; the default plays no part.
   */
  lemma EnvBoolAcceptsOnlyPadded(text: string, default: bool)
    requires EnvBool(Some(text), default)
    ensures exists i, j :: 0 <= i <= j <= |text| && AllSpace(text[..i]) && AllSpace(text[j..])
                           && Lower(text[i..j]) in TruthyWords
    ensures EnvBool(Some(text), !default)
  {
    var i := StripStart(text);
    var j := i + |Strip(text)|;
    assert text[i..j] == Strip(text);
  }
}
