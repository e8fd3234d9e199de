/**
 * The onboarding flag in `localStorage` and the welcome screen's
 * 'Get started' button.
 */
module Onboarding {
  import opened Wrappers
  import opened Storage

  const OnboardingKey: string := "period_app_onboarding_done"

  /** The entries after a `setOnboardingComplete` whose write went through. */
  function Completed(entries: map<string, string>): map<string, string> {
    entries[OnboardingKey := "true"]
  }

  /** `isNewUser()`: new unless a working read finds exactly 'true' under the flag. */
  predicate IsNewUserOf(entries: map<string, string>, readFails: bool) {
    !ReadsTrue(entries, OnboardingKey, readFails)
  }

  /** `setOnboardingComplete()`: writes 'true' under the flag; a throwing write is ignored. */
  method SetOnboardingComplete(store: KeyValueStore, fails: bool)
    modifies store
    ensures store.entries == if fails then old(store.entries) else Completed(old(store.entries))
  {
    var _ := store.SetItem(OnboardingKey, "true", fails);
  }

  /** `isNewUser()` on the store; a throwing read counts as a new user. */
  method IsNewUser(store: KeyValueStore, fails: bool) returns (isNew: bool)
    ensures isNew == IsNewUserOf(store.entries, fails)
  {
    var threw, value := store.GetItem(OnboardingKey, fails);
    if threw {
      return true;
    }
    isNew := value != Some("true");
  }

  /**
   * Once the flag is written, a working read says the user is not new;
   * writing it again changes nothing, and no other key is touched.
   */
  lemma CompletedIsNotNew(entries: map<string, string>, other: string)
    ensures !IsNewUserOf(Completed(entries), false)
    ensures Completed(Completed(entries)) == Completed(entries)
    ensures other != OnboardingKey ==> Lookup(Completed(entries), other) == Lookup(entries, other)
  {
  }

  /** Any value under the flag other than exactly 'true' leaves the user new. */
  lemma OnlyTrueCompletes(entries: map<string, string>, v: string)
    ensures IsNewUserOf(entries[OnboardingKey := v], false) <==> v != "true"
  {
  }

  /** Where 'Get started' goes after writing the flag. */
  datatype Next = CallOnComplete | NavigateTo(path: string, replace: bool)

  /**
   * `handleGetStarted`: the flag is written first; then `onComplete` runs
   * when the screen was given one, otherwise the app navigates to /setup.
   */
  method HandleGetStarted(store: KeyValueStore, fails: bool, hasOnComplete: bool) returns (next: Next)
    modifies store
    ensures store.entries == if fails then old(store.entries) else Completed(old(store.entries))
    ensures next == if hasOnComplete then CallOnComplete else NavigateTo("/setup", true)
  {
    SetOnboardingComplete(store, fails);
    if hasOnComplete {
      next := CallOnComplete;
    } else {
      next := NavigateTo("/setup", true);
    }
  }
}
