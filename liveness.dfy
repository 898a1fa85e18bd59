/** Liveness verdict for a gofile page (`is_gofile_alive`). Navigating to the
    page and reading its rendered body text are browser operations; the model
    takes their outcome as input: `None` when navigation failed or the body text
    could not be read, `Some(text)` with the rendered text otherwise. */
module Liveness {
  import opened Wrappers
  import opened Strings

  /** Phrases whose presence in the rendered text marks a link as dead
      (`GOFILE_DEAD_PATTERNS`), in the order they are tried. */
  const DeadPhrases: seq<string> := [
    "This content does not exist",
    "The content you are looking for could not be found",
    "No items to display",
    "This content is password protected"
  ]

  /** The text carries at least one dead phrase. */
  predicate HasDeadPhrase(text: string) {
    exists k | 0 <= k < |DeadPhrases| :: Contains(text, DeadPhrases[k])
  }

  /** The verdict: alive exactly when the page was read and none of the dead
      phrases occurs in its text. */
  predicate Alive(page: Option<string>) {
    page.Some? && !HasDeadPhrase(page.value)
  }

  /** `is_gofile_alive` after navigation: a failed navigation or read gives
      `false`; otherwise the dead phrases are tried in order and the first one
      found gives `false`; if none is found the link is alive. */
  method IsGofileAlive(page: Option<string>) returns (alive: bool)
    ensures alive == Alive(page)
  {
    if page.None? {
      return false;
    }
    var text := page.value;
    for k := 0 to |DeadPhrases|
      invariant forall j :: 0 <= j < k ==> !Contains(text, DeadPhrases[j])
    {
      if Contains(text, DeadPhrases[k]) {
        return false;
      }
    }
    return true;
  }

  /** A page that could not be loaded or read is never alive. */
  lemma UnreadablePageIsDead()
    ensures !Alive(None)
  {
  }

  /** Any text with one of the dead phrases inside it is a dead page, whatever
      surrounds the phrase. */
  lemma DeadPhraseMakesDead(before: string, k: nat, after: string)
    requires k < |DeadPhrases|
    ensures !Alive(Some(before + DeadPhrases[k] + after))
  {
    var text := before + DeadPhrases[k] + after;
    assert text[|before|..|before| + |DeadPhrases[k]|] == DeadPhrases[k];
    assert OccursAt(DeadPhrases[k], text, |before|);
  }

  /** A readable page is alive exactly when no dead phrase occurs in it. */
  lemma ReadablePageVerdict(text: string)
    ensures Alive(Some(text)) <==> forall k :: 0 <= k < |DeadPhrases| ==> !Contains(text, DeadPhrases[k])
  {
  }
}
