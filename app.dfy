/**
 * The application shell: onboarding (welcome, then cycle set-up) for a new
 * user, the main routes otherwise, and the two state fields that choose
 * between them.
 */
module App {
  import opened Wrappers
  import opened Storage
  import opened Api
  import Onboarding
  import Setup
  import Auth

  datatype Step = Welcome | SetupStep

  /** What the app shows: a page with its properties, or nothing when no route matches. */
  datatype Screen =
    | OnboardingScreen(hasOnComplete: bool)
    | SetupScreen(title: string, hasOnComplete: bool)
    | HomeScreen
    | CalendarScreen
    | LogScreen
    | InsightsScreen
    | Placeholder(title: string)
    | NoMatch

  /** The paths of the routes under the layout at '/'. */
  const RoutePaths: set<string> := {"/", "/calendar", "/log", "/setup", "/onboarding", "/insights", "/settings"}

  /**
   * The page for a path under the layout; the onboarding pages reached this
   * way run without `onComplete`, and 'settings' is a placeholder.
   */
  function Route(path: string): (s: Screen)
    ensures s == NoMatch <==> path !in RoutePaths
    ensures s.OnboardingScreen? ==> !s.hasOnComplete
    ensures s.SetupScreen? ==> !s.hasOnComplete && s.title == "Update cycle info"
  {
    if path == "/" then HomeScreen
    else if path == "/calendar" then CalendarScreen
    else if path == "/log" then LogScreen
    else if path == "/setup" then SetupScreen("Update cycle info", false)
    else if path == "/onboarding" then OnboardingScreen(false)
    else if path == "/insights" then InsightsScreen
    else if path == "/settings" then Placeholder("Settings")
    else NoMatch
  }

  /** The screen for the two state fields and the current path. */
  function Render(showOnboarding: bool, step: Step, path: string): (s: Screen)
    ensures showOnboarding && step == Welcome ==> s == OnboardingScreen(true)
    ensures showOnboarding && step == SetupStep ==> s == SetupScreen(Setup.DefaultTitle, true)
    ensures !showOnboarding ==> s == Route(path)
  {
    if showOnboarding then
      if step == Welcome then OnboardingScreen(true) else SetupScreen(Setup.DefaultTitle, true)
    else Route(path)
  }

  class AppState {
    var showOnboarding: bool
    var onboardingStep: Step

    /** How far onboarding has come: welcome, set-up, done. */
    function Stage(): nat
      reads this
    {
      if !showOnboarding then 2 else if onboardingStep == SetupStep then 1 else 0
    }

    function Screen(path: string): Screen
      reads this
    {
      Render(showOnboarding, onboardingStep, path)
    }

    /** The app starts in onboarding exactly when the onboarding flag says the user is new. */
    constructor (store: KeyValueStore, readFails: bool)
      ensures showOnboarding == Onboarding.IsNewUserOf(store.entries, readFails)
      ensures onboardingStep == Welcome
    {
      showOnboarding := Onboarding.IsNewUserOf(store.entries, readFails);
      onboardingStep := Welcome;
    }

    /** The welcome screen's `onComplete`: only the step changes. */
    method WelcomeComplete()
      modifies this
      ensures onboardingStep == SetupStep && showOnboarding == old(showOnboarding)
      ensures Stage() >= old(Stage())
    {
      onboardingStep := SetupStep;
    }

    /** The set-up screen's `onComplete`: onboarding ends. */
    method SetupComplete()
      modifies this
      ensures !showOnboarding && onboardingStep == old(onboardingStep)
      ensures Stage() == 2
    {
      showOnboarding := false;
    }

    /**
     * 'Get started' on the welcome screen: the flag is written, and only
     * then does the app move to the set-up step.
     */
    method GetStarted(store: KeyValueStore, fails: bool)
      requires showOnboarding && onboardingStep == Welcome
      modifies this, store
      ensures showOnboarding && onboardingStep == SetupStep
      ensures store.entries == if fails then old(store.entries) else Onboarding.Completed(old(store.entries))
      ensures Stage() == old(Stage()) + 1
    {
      var next := Onboarding.HandleGetStarted(store, fails, true);
      if next == Onboarding.CallOnComplete {
        WelcomeComplete();
      }
    }

    /** 'Save' on the set-up step: onboarding ends exactly when the profile was sent and saved. */
    method SaveSetup(form: Setup.SetupForm, store: KeyValueStore, outcome: Response<()>, flagFails: bool)
      returns (request: Option<Setup.Profile>)
      requires showOnboarding && onboardingStep == SetupStep
      modifies this, form, store
      ensures showOnboarding <==> request.None? || outcome.Err?
      ensures onboardingStep == SetupStep
      ensures store.entries == if request.Some? && outcome.Ok? && !flagFails
        then Onboarding.Completed(old(store.entries)) else old(store.entries)
      ensures !form.saving
      ensures Stage() >= old(Stage())
    {
      var next;
      request, next := form.HandleSubmit(store, outcome, flagFails, true);
      if next == Some(Onboarding.CallOnComplete) {
        SetupComplete();
      }
    }
  }

  /**
   * In onboarding the path plays no part; once it is over only the main
   * routes are shown, and the onboarding pages they offer run without
   * `onComplete`.
   */
  lemma RenderModes(step: Step, p: string, q: string)
    ensures Render(true, step, p) == Render(true, step, q)
    ensures Render(false, step, p) == Route(p)
    ensures Render(false, step, p) == NoMatch <==> p !in RoutePaths
  {
  }

  /**
   * The places the pages navigate to, '/' after a save and '/setup' from a
   * welcome screen without `onComplete`, are routes of the main app.
   */
  lemma NavigationTargets()
    ensures Route("/") == HomeScreen
    ensures Route("/setup") == SetupScreen("Update cycle info", false)
  {
  }

  /**
   * The app decides onboarding from the onboarding flag, not from the
   * token: a user with the flag and no token skips onboarding though the
   * token-based check calls them new, and a user with a token and no flag
   * is sent through onboarding again.
   */
  lemma NewUserChecksDiffer()
    ensures var flagOnly := map[Onboarding.OnboardingKey := "true"];
      !Onboarding.IsNewUserOf(flagOnly, false) && Auth.IsNewUserOf(flagOnly, false)
    ensures var tokenOnly := map[Auth.TokenKey := "abc"];
      Onboarding.IsNewUserOf(tokenOnly, false) && !Auth.IsNewUserOf(tokenOnly, false)
  {
    var flagOnly := map[Onboarding.OnboardingKey := "true"];
    assert Auth.TokenKey !in flagOnly;
    var tokenOnly := map[Auth.TokenKey := "abc"];
    assert Onboarding.OnboardingKey !in tokenOnly;
  }
}
