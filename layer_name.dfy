/**
 * `valid_layer_name` (helpers.py:100-110), the argument check for the DXF
 * layer names given on the command line: a name must be non-empty, made
 * of ASCII letters, digits, `_` and `-`, and at most 255 characters long;
 * the checks run in that order and the first that fails names the error.
 */
module LayerName {
  import opened Wrappers

  /** The three `ArgumentTypeError` messages. */
  datatype LayerError = Empty | BadCharacters | TooLong

  /** The character class `[a-zA-Z0-9_-]`. */
  predicate IsNameChar(c: char) {
    ('a' <= c <= 'z') || ('A' <= c <= 'Z') || ('0' <= c <= '9') || c == '_' || c == '-'
  }

  /** Longest accepted name. */
  const MaxLength := 255

  /**
   * Reference semantics of `re.match(r'^[a-zA-Z0-9_-]+$', s)` with the
   * repetition ending at `j`: `$` holds at the end of the string and also
   * just before a newline that ends it.
   */
  predicate PatternAccepts(s: string, j: nat) {
    && 1 <= j <= |s|
    && (forall i :: 0 <= i < j ==> IsNameChar(s[i]))
    && (j == |s| || (j == |s| - 1 && s[j] == '\n'))
  }

  /** The text the repetition has to cover: the name without one final newline. */
  function Body(s: string): string {
    if s != [] && s[|s| - 1] == '\n' then s[..|s| - 1] else s
  }

  /** The pattern test as the regular expression engine decides it. */
  predicate MatchesPattern(s: string) {
    var b := Body(s);
    b != [] && forall i :: 0 <= i < |b| ==> IsNameChar(b[i])
  }

  /** `MatchesPattern` holds exactly when some end of the repetition is accepted. */
  lemma MatchesPatternSpec(s: string)
    ensures MatchesPattern(s) <==> exists j: nat :: PatternAccepts(s, j)
  {
    var b := Body(s);
    if MatchesPattern(s) {
      assert PatternAccepts(s, |b|);
    }
    if exists j: nat :: PatternAccepts(s, j) {
      var j: nat :| PatternAccepts(s, j);
      if j == |s| {
        assert IsNameChar(s[j - 1]);
      }
      assert j == |b|;
      assert forall i :: 0 <= i < |b| ==> b[i] == s[i];
    }
  }

  /**
   * `valid_layer_name` as written: empty first, then the pattern, then the
   * length; an accepted name is returned unchanged.
   */
  function ValidLayerName(name: string): (r: Result<string, LayerError>)
    ensures r == Err(Empty) <==> name == []
    ensures r == Err(BadCharacters) <==> name != [] && !exists j: nat :: PatternAccepts(name, j)
    ensures r == Err(TooLong) <==> (exists j: nat :: PatternAccepts(name, j)) && |name| > MaxLength
    ensures r.Ok? <==> (exists j: nat :: PatternAccepts(name, j)) && |name| <= MaxLength
    ensures r.Ok? ==> r.value == name
  {
    MatchesPatternSpec(name);
    if name == [] then Err(Empty)
    else if !MatchesPattern(name) then Err(BadCharacters)
    else if |name| > MaxLength then Err(TooLong)
    else Ok(name)
  }

  /**
   * A name followed by a newline passes the check as written, newline
   * included, because `$` also matches before a final newline.
   */
  lemma TrailingNewlineAccepted()
    ensures ValidLayerName("beams\n") == Ok("beams\n")
  {
    assert Body("beams\n") == "beams";
  }

  /**
   * The check the pattern `^...$` evidently intends: every character of
   * the name is in the class, as `re.fullmatch` would decide.
   */
  function ValidLayerNameFull(name: string): (r: Result<string, LayerError>)
    ensures r.Ok? ==> r.value == name && 1 <= |name| <= MaxLength
    ensures r.Ok? <==> name != [] && |name| <= MaxLength && forall i :: 0 <= i < |name| ==> IsNameChar(name[i])
  {
    if name == [] then Err(Empty)
    else if exists i :: 0 <= i < |name| && !IsNameChar(name[i]) then Err(BadCharacters)
    else if |name| > MaxLength then Err(TooLong)
    else Ok(name)
  }

  /** The two checks differ only on names that end in a newline after valid characters. */
  lemma FullCheckDiffersOnlyOnNewline(name: string)
    ensures ValidLayerNameFull(name) != ValidLayerName(name) ==>
      |name| >= 2 && name[|name| - 1] == '\n' && ValidLayerNameFull(name) == Err(BadCharacters)
  {
    if name != [] && name[|name| - 1] != '\n' {
      assert Body(name) == name;
    } else if name != [] {
      assert !IsNameChar(name[|name| - 1]);
    }
  }
}
