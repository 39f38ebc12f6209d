/** The home page's call controls: the language direction and its swap, the
    translation switch that shows the overlay, the overlay's close button and
    the end-call button, and the two option toggles. */
module Home {

  import opened Wrappers
  import opened Routing

  datatype LangDirection = LangDirection(from: string, to: string)

  datatype HomeState = HomeState(
    isTranslating: bool,
    autoDetect: bool,
    voiceTranslation: bool,
    langDirection: LangDirection)

  /** The state when the page opens: not translating, auto-detect on, voice
      translation off, Hindi to English. */
  const InitialHome: HomeState := HomeState(false, true, false, LangDirection("Hindi", "English"))

  /** The swap button: source and target exchange places. */
  function HandleSwapLanguages(h: HomeState): (r: HomeState)
    ensures r.langDirection.from == h.langDirection.to && r.langDirection.to == h.langDirection.from
    ensures r.isTranslating == h.isTranslating && r.autoDetect == h.autoDetect && r.voiceTranslation == h.voiceTranslation
  {
    h.(langDirection := LangDirection(h.langDirection.to, h.langDirection.from))
  }

  /** The Start Translator button flips the translation switch only. */
  function ToggleTranslation(h: HomeState): (r: HomeState)
    ensures r.isTranslating == !h.isTranslating
    ensures r.langDirection == h.langDirection && r.autoDetect == h.autoDetect && r.voiceTranslation == h.voiceTranslation
  {
    h.(isTranslating := !h.isTranslating)
  }

  /** The overlay's close button and the end-call button: both turn
      translation off. */
  function StopTranslating(h: HomeState): (r: HomeState)
    ensures !r.isTranslating
    ensures r.langDirection == h.langDirection && r.autoDetect == h.autoDetect && r.voiceTranslation == h.voiceTranslation
  {
    h.(isTranslating := false)
  }

  /** The auto-detect switch flips its own flag only. */
  function ToggleAutoDetect(h: HomeState): (r: HomeState)
    ensures r.autoDetect == !h.autoDetect
    ensures r.isTranslating == h.isTranslating && r.voiceTranslation == h.voiceTranslation && r.langDirection == h.langDirection
  {
    h.(autoDetect := !h.autoDetect)
  }

  /** The voice-translation switch flips its own flag only. */
  function ToggleVoiceTranslation(h: HomeState): (r: HomeState)
    ensures r.voiceTranslation == !h.voiceTranslation
    ensures r.isTranslating == h.isTranslating && r.autoDetect == h.autoDetect && r.langDirection == h.langDirection
  {
    h.(voiceTranslation := !h.voiceTranslation)
  }

  /** The overlay and the end-call control are on screen while translating. */
  predicate OverlayShown(h: HomeState)
  {
    h.isTranslating
  }

  /** Whether the overlay is on screen changes only with the translation
      switch: the Start Translator button flips it, closing or ending the call
      hides it, and the swap and the two option switches leave it alone. */
  lemma OverlayFollowsSwitch(h: HomeState)
    ensures OverlayShown(ToggleTranslation(h)) <==> !OverlayShown(h)
    ensures !OverlayShown(StopTranslating(h))
    ensures OverlayShown(HandleSwapLanguages(h)) == OverlayShown(h)
    ensures OverlayShown(ToggleAutoDetect(h)) == OverlayShown(h)
    ensures OverlayShown(ToggleVoiceTranslation(h)) == OverlayShown(h)
  {
  }

  /** The settings button. */
  function OpenSettings(): (nav: Option<Route>)
    ensures nav.Some? && Path(nav.value) == "/settings"
  {
    Some(Settings)
  }

  /** The opening state, as the page's four state hooks set it up. */
  lemma InitialHomeState()
    ensures !InitialHome.isTranslating && InitialHome.autoDetect && !InitialHome.voiceTranslation
    ensures InitialHome.langDirection.from == "Hindi" && InitialHome.langDirection.to == "English"
    ensures !OverlayShown(InitialHome)
  {
  }

  /** Swapping twice is the identity, and swapping the opening direction gives
      English to Hindi. */
  lemma SwapTwice(h: HomeState)
    ensures HandleSwapLanguages(HandleSwapLanguages(h)) == h
    ensures HandleSwapLanguages(InitialHome).langDirection == LangDirection("English", "Hindi")
  {
  }

  /** Each toggle undoes itself. */
  lemma TogglesAreInvolutions(h: HomeState)
    ensures ToggleTranslation(ToggleTranslation(h)) == h
    ensures ToggleAutoDetect(ToggleAutoDetect(h)) == h
    ensures ToggleVoiceTranslation(ToggleVoiceTranslation(h)) == h
  {
  }

  /** Closing the overlay or ending the call is idempotent and hides the
      overlay; while translating it undoes the Start Translator button, and
      starting translation from the opening state shows the overlay. */
  lemma StopTranslatingSpec(h: HomeState)
    ensures StopTranslating(StopTranslating(h)) == StopTranslating(h)
    ensures !OverlayShown(StopTranslating(h))
    ensures h.isTranslating ==> StopTranslating(h) == ToggleTranslation(h)
    ensures !h.isTranslating ==> StopTranslating(h) == h
    ensures OverlayShown(ToggleTranslation(InitialHome))
  {
  }
}
