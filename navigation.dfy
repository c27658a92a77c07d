/**
 * The navigation bar's journey indicator and its mobile menu.
 *
 * The four journey steps are ordered; the current step is the first one
 * whose path equals the current pathname (-1 when none does). Each step is
 * then active (it is the current one), completed (it comes before the
 * current one) or upcoming, and its icon, label and trailing arrow are
 * coloured from that. The pathname is a plain string input: routing itself
 * is not modelled.
 */
module Navigation {

  /** A journey step; the icon component is not modelled. */
  datatype Step = Step(path: string, title: string, color: string, bgColor: string)

  /** The ordered journey steps. */
  const JourneySteps: seq<Step> :=
    [
    Step("/student-resources", "Student", "text-blue-600", "bg-blue-50"),
    Step("/learning", "Learner", "text-blue-600", "bg-blue-50"),
    Step("/internships", "Intern", "text-green-600", "bg-green-50"),
    Step("/employment", "Employee", "text-orange-600", "bg-orange-50")
  ]

  /** `steps.findIndex(step => step.path === pathname)`. */
  function FindIndex(steps: seq<Step>, pathname: string): (r: int)
    ensures -1 <= r < |steps|
    ensures 0 <= r ==> steps[r].path == pathname && forall k :: 0 <= k < r ==> steps[k].path != pathname
    ensures r == -1 <==> forall k :: 0 <= k < |steps| ==> steps[k].path != pathname
  {
    if steps == [] then -1
    else if steps[0].path == pathname then 0
    else
      var j := FindIndex(steps[1..], pathname);
      if j == -1 then -1 else j + 1
  }

  /** `getCurrentStepIndex()`: the position of the pathname in the journey, or -1. */
  function CurrentStepIndex(pathname: string): (r: int)
    ensures -1 <= r < 4
    ensures 0 <= r ==> JourneySteps[r].path == pathname
    ensures r == -1 <==> forall k :: 0 <= k < |JourneySteps| ==> JourneySteps[k].path != pathname
  {
    FindIndex(JourneySteps, pathname)
  }

  /** No two journey steps share a path. */
  lemma PathsAreDistinct()
    ensures forall i, j :: 0 <= i < j < |JourneySteps| ==> JourneySteps[i].path != JourneySteps[j].path
  {
  }

  /** Because the paths are distinct, a step matches the pathname exactly when it is the current one. */
  lemma AtMostOneStepMatches(pathname: string, i: int)
    requires 0 <= i < |JourneySteps|
    ensures JourneySteps[i].path == pathname <==> CurrentStepIndex(pathname) == i
  {
    PathsAreDistinct();
  }

  /** What a step shows itself as, given the current step index. */
  datatype StepState = Active | Completed | Upcoming

  /** `isActive`: the step is the current one. */
  predicate IsActive(current: int, index: int)
  {
    current == index
  }

  /** `isCompleted`: the current step lies beyond this one. */
  predicate IsCompleted(current: int, index: int)
  {
    current > index
  }

  /** A step's state from the two flags, active taking precedence as in the styling chains. */
  function Classify(current: int, index: int): (s: StepState)
    ensures s == Active <==> IsActive(current, index)
    ensures s == Completed <==> IsCompleted(current, index)
    ensures s == Upcoming <==> !IsActive(current, index) && !IsCompleted(current, index)
  {
    if IsActive(current, index) then Active
    else if IsCompleted(current, index) then Completed
    else Upcoming
  }

  /** A step is never both active and completed. */
  lemma ActiveAndCompletedExclusive(current: int, index: int)
    ensures !(IsActive(current, index) && IsCompleted(current, index))
  {
  }

  /** The states of the first `n` steps. */
  function States(current: int, n: nat): (r: seq<StepState>)
    ensures |r| == n
  {
    seq(n, i requires 0 <= i < n => Classify(current, i))
  }

  /**
   * When the current index is a step, every step before it is completed,
   * it alone is active, and every step after it is upcoming.
   */
  lemma StatesAroundCurrent(current: int, n: nat)
    requires 0 <= current < n
    ensures forall i :: 0 <= i < n ==>
      (States(current, n)[i] == Completed <==> i < current) &&
      (States(current, n)[i] == Active <==> i == current) &&
      (States(current, n)[i] == Upcoming <==> current < i)
  {
  }

  /** When the pathname is outside the journey, no step is active or completed. */
  lemma OutsideJourneyAllUpcoming(n: nat)
    ensures forall i :: 0 <= i < n ==> States(-1, n)[i] == Upcoming
  {
  }

  /** The icon bubble's background: the step's own colour, then two greys. */
  function IconBackground(step: Step, isActive: bool, isCompleted: bool): string
  {
    if isActive then step.bgColor else if isCompleted then "bg-gray-100" else "bg-gray-50"
  }

  /** The icon's and the label's text colour: the step's own colour, then two greys. */
  function TextColor(step: Step, isActive: bool, isCompleted: bool): string
  {
    if isActive then step.color else if isCompleted then "text-gray-600" else "text-gray-400"
  }

  /** The connector arrow's colour: dark after a completed step, light otherwise. */
  function ArrowColor(isCompleted: bool): string
  {
    if isCompleted then "text-gray-600" else "text-gray-300"
  }

  /** Whether a connector arrow follows a step, and in which colour. */
  datatype Arrow = NoArrow | ArrowIn(color: string)

  /** What the desktop bar draws for one step. */
  datatype StepView = StepView(
    path: string,
    title: string,
    iconBackground: string,
    iconColor: string,
    labelColor: string,
    arrow: Arrow)

  /** The view of step `index` of `n` when the current index is `current`. */
  function ViewStep(step: Step, index: int, n: int, current: int): (v: StepView)
    ensures v.path == step.path && v.title == step.title
    ensures v.arrow != NoArrow <==> index < n - 1
  {
    var isActive := IsActive(current, index);
    var isCompleted := IsCompleted(current, index);
    StepView(
      step.path,
      step.title,
      IconBackground(step, isActive, isCompleted),
      TextColor(step, isActive, isCompleted),
      TextColor(step, isActive, isCompleted),
      if index < n - 1 then ArrowIn(ArrowColor(isCompleted)) else NoArrow)
  }

  /** `steps.map((step, index) => ...)` in the desktop bar. */
  function RenderSteps(steps: seq<Step>, current: int): (r: seq<StepView>)
    ensures |r| == |steps|
  {
    seq(|steps|, i requires 0 <= i < |steps| => ViewStep(steps[i], i, |steps|, current))
  }

  /** The styling of each step follows its state alone, with the step's own colours only when active. */
  lemma StylingFollowsState(steps: seq<Step>, current: int, i: int)
    requires 0 <= i < |steps|
    ensures var v := RenderSteps(steps, current)[i];
      match Classify(current, i)
      case Active => v.iconBackground == steps[i].bgColor && v.iconColor == steps[i].color && v.labelColor == steps[i].color
      case Completed => v.iconBackground == "bg-gray-100" && v.iconColor == "text-gray-600" && v.labelColor == "text-gray-600"
      case Upcoming => v.iconBackground == "bg-gray-50" && v.iconColor == "text-gray-400" && v.labelColor == "text-gray-400"
  {
  }

  /** The arrow after step `i` is dark exactly when step `i` is completed, and there is no arrow after the last step. */
  lemma ArrowsFollowCompletion(steps: seq<Step>, current: int, i: int)
    requires 0 <= i < |steps|
    ensures i < |steps| - 1 ==>
      (RenderSteps(steps, current)[i].arrow == ArrowIn("text-gray-600") <==> Classify(current, i) == Completed)
    ensures i == |steps| - 1 ==> RenderSteps(steps, current)[i].arrow == NoArrow
  {
  }

  /** The number of views that carry an arrow. */
  function ArrowCount(views: seq<StepView>): (r: nat)
    ensures r <= |views|
  {
    if views == [] then 0 else (if views[0].arrow != NoArrow then 1 else 0) + ArrowCount(views[1..])
  }

  /** Of the views from position `from` on, the ones with an arrow are those before the last step. */
  lemma {:induction false} ArrowCountFrom(steps: seq<Step>, current: int, from: nat)
    requires from <= |steps|
    ensures ArrowCount(RenderSteps(steps, current)[from..]) == if from < |steps| then |steps| - 1 - from else 0
    decreases |steps| - from
  {
    var views := RenderSteps(steps, current);
    if from < |steps| {
      ArrowCountFrom(steps, current, from + 1);
      assert views[from..][1..] == views[from + 1..];
    }
  }

  /** A journey of `n` steps draws exactly `n - 1` connector arrows. */
  lemma ArrowCountIsOneLess(steps: seq<Step>, current: int)
    requires |steps| > 0
    ensures ArrowCount(RenderSteps(steps, current)) == |steps| - 1
  {
    ArrowCountFrom(steps, current, 0);
    assert RenderSteps(steps, current)[0..] == RenderSteps(steps, current);
  }

  /** On "/internships" the index is 2: the first two steps are completed, the third active, the last upcoming. */
  lemma InternshipsPage()
    ensures CurrentStepIndex("/internships") == 2
    ensures States(CurrentStepIndex("/internships"), |JourneySteps|) == [Completed, Completed, Active, Upcoming]
  {
    AtMostOneStepMatches("/internships", 2);
  }

  /** The home page and the About page are outside the journey: index -1, every step upcoming. */
  lemma PagesOutsideJourney()
    ensures CurrentStepIndex("/") == -1 && CurrentStepIndex("/about") == -1
    ensures States(CurrentStepIndex("/"), |JourneySteps|) == [Upcoming, Upcoming, Upcoming, Upcoming]
  {
  }

  /** The icon on the mobile menu button. */
  datatype MenuIcon = MenuBars | CloseCross

  /** The mobile menu's `isOpen` state. */
  class MobileMenu {
    var isOpen: bool

    /** `useState(false)`: the menu starts closed. */
    constructor ()
      ensures !isOpen
    {
      isOpen := false;
    }

    /** The collapsible menu is rendered exactly while it is open. */
    predicate MenuRendered()
      reads this
    {
      isOpen
    }

    /** The button shows a cross while the menu is open and the bars while it is closed. */
    function ButtonIcon(): (icon: MenuIcon)
      reads this
      ensures icon == CloseCross <==> MenuRendered()
    {
      if isOpen then CloseCross else MenuBars
    }

    /** The menu button's `onClick`: `setIsOpen(!isOpen)`. */
    method Toggle()
      modifies this
      ensures isOpen == !old(isOpen)
      ensures ButtonIcon() != old(ButtonIcon())
    {
      isOpen := !isOpen;
    }

    /** A link click in the mobile bar or the menu: `setIsOpen(false)`. */
    method LinkClicked()
      modifies this
      ensures !isOpen && !MenuRendered()
    {
      isOpen := false;
    }
  }
}
