/** An optional value: a handler's requested navigation (`None` leaves the
    current page in place, `Some(r)` is a call of the router's `navigate(r)`),
    or a text that may be absent. */
module Wrappers {
  datatype Option<+T> = None | Some(value: T)
}

/** Routes of the single-page application. */
module Routing {

  /** The four pages the router knows, by their paths. */
  datatype Route = Onboarding | Permissions | Home | Settings

  /** The path string the router is given for each route. */
  function Path(r: Route): (p: string)
    ensures |p| > 1 && p[0] == '/'
  {
    match r
    case Onboarding => "/onboarding"
    case Permissions => "/permissions"
    case Home => "/home"
    case Settings => "/settings"
  }

  /** Distinct routes have distinct paths, so a route value stands for its path. */
  lemma PathInjective(r1: Route, r2: Route)
    ensures Path(r1) == Path(r2) ==> r1 == r2
  {
  }
}
