/** The onboarding carousel: three slides, a current index, a Next button that
    advances or, on the last slide, leads to the permission page, and a Skip
    button that always does. */
module Onboarding {

  import opened Wrappers
  import opened Routing

  datatype Slide = Slide(id: nat, title: string, desc: string)

  /** The fixed slide list. */
  const Slides: seq<Slide> := [
    Slide(1, "Translate Any Call Instantly",
          "Real-time speech translation for phone and WhatsApp calls."),
    Slide(2, "Works on WhatsApp Audio & Video",
          "Seamlessly integrates with your favorite calling apps."),
    Slide(3, "Hindi ↔ English Real-time",
          "Break language barriers with instant bidirectional translation.")
  ]

  /** The index of the slide shown when the page opens. */
  const InitialSlide: nat := 0

  /** The index of the last slide. */
  function LastSlide(): (i: nat)
    ensures i + 1 == |Slides| && i == 2
  {
    |Slides| - 1
  }

  /** A slide index the page can show. */
  predicate ValidSlide(current: nat)
  {
    current < |Slides|
  }

  /** The slide on screen: its icon, title and description. */
  function ShownSlide(current: nat): (s: Slide)
    requires ValidSlide(current)
    ensures s in Slides && s.id == current + 1
  {
    Slides[current]
  }

  /** What a button press yields: the new slide index and the navigation it requests. */
  datatype Outcome = Outcome(current: nat, nav: Option<Route>)

  /** The Next button: advance while not on the last slide, otherwise go on to
      the permission page without leaving the last slide. */
  function HandleNext(current: nat): (o: Outcome)
    ensures current < LastSlide() ==> o.current == current + 1 && o.nav == None
    ensures current >= LastSlide() ==> o.current == current && o.nav == Some(Permissions)
  {
    if current < |Slides| - 1 then Outcome(current + 1, None) else Outcome(current, Some(Permissions))
  }

  /** The Skip button: always to the permission page, the index untouched. */
  function HandleSkip(current: nat): (o: Outcome)
    ensures o.current == current && o.nav == Some(Permissions)
  {
    Outcome(current, Some(Permissions))
  }

  datatype Action = Next | Skip

  function Step(current: nat, a: Action): Outcome
  {
    match a
    case Next => HandleNext(current)
    case Skip => HandleSkip(current)
  }

  /** The slide index after a sequence of button presses. */
  function Run(current: nat, actions: seq<Action>): nat
    decreases |actions|
  {
    if actions == [] then current else Run(Step(current, actions[0]).current, actions[1..])
  }

  /** Each press keeps the index on a slide that exists. */
  lemma StepKeepsValid(current: nat, a: Action)
    requires ValidSlide(current)
    ensures ValidSlide(Step(current, a).current)
  {
  }

  /** Whatever the presses, the index stays on a slide that exists. */
  lemma {:induction false} RunKeepsValid(current: nat, actions: seq<Action>)
    requires ValidSlide(current)
    ensures ValidSlide(Run(current, actions))
    decreases |actions|
  {
    if actions != [] {
      StepKeepsValid(current, actions[0]);
      RunKeepsValid(Step(current, actions[0]).current, actions[1..]);
    }
  }

  /** From the opening slide the index stays in range under any presses. */
  lemma AlwaysOnASlide(actions: seq<Action>)
    ensures 0 <= Run(InitialSlide, actions) < |Slides|
  {
    RunKeepsValid(InitialSlide, actions);
  }

  /** Pressing Next n times from the opening slide ends on slide min(n, 2). */
  lemma NextPresses(n: nat)
    ensures Run(InitialSlide, seq(n, _ => Next)) == if n < LastSlide() then n else LastSlide()
  {
    NextPressesFrom(InitialSlide, n);
  }

  /** Pressing Next n times from a valid slide moves n slides on, stopping at the last. */
  lemma {:induction false} NextPressesFrom(current: nat, n: nat)
    requires ValidSlide(current)
    ensures Run(current, seq(n, _ => Next)) == if current + n < LastSlide() then current + n else LastSlide()
    decreases n
  {
    if n > 0 {
      var rest := seq(n - 1, _ => Next);
      assert seq(n, _ => Next)[0] == Next;
      assert seq(n, _ => Next)[1..] == rest;
      NextPressesFrom(HandleNext(current).current, n - 1);
    }
  }

  /** From the opening slide the first two presses of Next advance without
      navigating and the third navigates to the permission page. */
  lemma ThirdNextNavigates()
    ensures HandleNext(InitialSlide) == Outcome(1, None)
    ensures HandleNext(1) == Outcome(2, None)
    ensures HandleNext(2) == Outcome(2, Some(Permissions))
    ensures Run(InitialSlide, [Next, Next]) == 2
  {
    assert [Next, Next][1..] == [Next];
  }

  /** The dots under the slide: one per slide, lit when it is the current one. */
  function Dots(current: nat): (dots: seq<bool>)
    ensures |dots| == |Slides|
    ensures forall i :: 0 <= i < |dots| ==> (dots[i] <==> i == current)
  {
    seq(|Slides|, index => index == current)
  }

  /** The number of lit entries. */
  function CountLit(dots: seq<bool>): nat
  {
    if dots == [] then 0 else (if dots[0] then 1 else 0) + CountLit(dots[1..])
  }

  /** A row of dots lit at exactly one position has one lit dot. */
  lemma {:induction false} CountLitOne(dots: seq<bool>, j: nat)
    requires j < |dots|
    requires forall i :: 0 <= i < |dots| ==> (dots[i] <==> i == j)
    ensures CountLit(dots) == 1
    decreases |dots|
  {
    if j == 0 {
      CountLitNone(dots[1..]);
    } else {
      CountLitOne(dots[1..], j - 1);
    }
  }

  /** A row of dots with none lit counts zero. */
  lemma {:induction false} CountLitNone(dots: seq<bool>)
    requires forall i :: 0 <= i < |dots| ==> !dots[i]
    ensures CountLit(dots) == 0
    decreases |dots|
  {
    if dots != [] {
      CountLitNone(dots[1..]);
    }
  }

  /** On a valid slide exactly one dot is lit, the current one. */
  lemma ExactlyOneDotLit(current: nat)
    requires ValidSlide(current)
    ensures CountLit(Dots(current)) == 1 && Dots(current)[current]
  {
    CountLitOne(Dots(current), current);
  }

  /** The primary button's label. */
  function NextLabel(current: nat): (text: string)
    ensures text == "Get Started" <==> current == LastSlide()
    ensures text == "Next" <==> current != LastSlide()
  {
    if current == |Slides| - 1 then "Get Started" else "Next"
  }

  /** The arrow icon beside the label, shown except on the last slide. */
  function ShowsArrow(current: nat): (shown: bool)
    ensures shown <==> current != LastSlide()
  {
    current != |Slides| - 1
  }

  /** The label says "Get Started" exactly when Next would navigate. */
  lemma LabelMatchesNext(current: nat)
    requires ValidSlide(current)
    ensures NextLabel(current) == "Get Started" <==> HandleNext(current).nav.Some?
    ensures ShowsArrow(current) <==> HandleNext(current).nav == None
  {
  }
}
