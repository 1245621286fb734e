/** The tag slug check (recipes/validators.py): the pattern
    ^[-a-zA-Z0-9_]+$ as Python's re.search applies it, the validator built
    on it, and the wrapper that re-raises with its own message. */
module TagSlugs {
  import opened Common

  const AlphanumericMessage := "Допускаются только буквенно-цифровые символы и знаки подчеркивания."
  const TagSlugMessage := "Доступны только буквенно-цифровые символы и знаки подчеркивания."

  /** The character class [-a-zA-Z0-9_]. */
  predicate IsSlugChar(c: char) {
    c == '-' || ('a' <= c <= 'z') || ('A' <= c <= 'Z') || ('0' <= c <= '9') || c == '_'
  }

  predicate AllSlugChars(w: string) {
    forall i :: 0 <= i < |w| ==> IsSlugChar(w[i])
  }

  /** How far the greedy [-a-zA-Z0-9_]+ runs from the start of `s`. */
  function LeadingRun(s: string): (n: nat)
    ensures n <= |s|
    ensures forall i :: 0 <= i < n ==> IsSlugChar(s[i])
    ensures n < |s| ==> !IsSlugChar(s[n])
  {
    if s == [] || !IsSlugChar(s[0]) then 0 else 1 + LeadingRun(s[1..])
  }

  /** re.search(r'^[-a-zA-Z0-9_]+$', s) succeeds: the run covers at least
      one character and is followed by what `$` accepts, the end of the
      string or a newline that is its last character.  Backing off the run
      cannot help, since `$` never holds before a class character. */
  predicate SlugPatternMatches(s: string) {
    var n := LeadingRun(s);
    n >= 1 && (n == |s| || (n == |s| - 1 && s[n] == '\n'))
  }

  /** alphanumeric_validator(value) */
  function AlphanumericValidator(value: string): Outcome<Error> {
    if SlugPatternMatches(value) then Pass else Fail(ValidationError(AlphanumericMessage))
  }

  /** tag_slug_validator(value): the same verdict, its own message. */
  function TagSlugValidator(value: string): (r: Outcome<Error>)
    ensures r.Pass? <==> AlphanumericValidator(value).Pass?
    ensures r.Fail? ==> r.error == ValidationError(TagSlugMessage)
  {
    match AlphanumericValidator(value)
    case Pass => Pass
    case Fail(_) => Fail(ValidationError(TagSlugMessage))
  }

  /** The strings the pattern accepts: a non-empty run of class characters,
      optionally followed by one newline. */
  lemma SlugPatternMatchesIff(s: string)
    ensures SlugPatternMatches(s) <==>
      (|s| > 0 && AllSlugChars(s)) ||
      (|s| >= 2 && s[|s| - 1] == '\n' && AllSlugChars(s[..|s| - 1]))
  {
  }

  lemma EmptySlugRejected()
    ensures TagSlugValidator("") == Fail(ValidationError(TagSlugMessage))
  {
  }

  /** An accepted slug followed by one newline is still accepted. */
  lemma TrailingNewlineAccepted(w: string)
    requires |w| > 0 && AllSlugChars(w)
    ensures TagSlugValidator(w + "\n") == Pass
  {
    var s := w + "\n";
    assert s[..|s| - 1] == w;
    SlugPatternMatchesIff(s);
  }

  /** Any other character, anywhere but as a final newline, is refused. */
  lemma ForeignCharRejected(s: string, k: nat)
    requires k < |s| && !IsSlugChar(s[k])
    requires !(k == |s| - 1 && s[k] == '\n')
    ensures TagSlugValidator(s) == Fail(ValidationError(TagSlugMessage))
  {
    SlugPatternMatchesIff(s);
  }

  lemma SlugExamples()
    ensures TagSlugValidator("tea_2-go") == Pass
    ensures TagSlugValidator("a b").Fail?
    ensures TagSlugValidator("#f00").Fail?
    ensures TagSlugValidator("чай").Fail?
  {
    SlugPatternMatchesIff("tea_2-go");
    ForeignCharRejected("a b", 1);
    ForeignCharRejected("#f00", 0);
    ForeignCharRejected("чай", 0);
  }
}
