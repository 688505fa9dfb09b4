/** The popover's visibility state machine as pure functions: one step per entry point
    of `Popover` (mount, unmount, `handleClick`, `close`, and a document `mousedown`
    reaching `handleClickOutside`), and the fold of those steps over a sequence. */
module Visibility {
  import opened Wrappers
  import opened View

  /** `showPopover`, and whether the instance is mounted. React attaches `wrapperRef`
      before `componentDidMount` and detaches it on unmount, so `mounted` is also
      "the wrapper ref is attached". */
  datatype State = State(showPopover: bool, mounted: bool)

  /** A new instance: the state initializer sets `showPopover` to false; not mounted. */
  const Initial := State(false, false)

  datatype Input =
    | Mount
    | Unmount
    | Click                              // the trigger's onClick: handleClick
    | CloseClick                         // the close button's onClick: close
    | MouseDown(target: Option<NodeId>)  // None: the event target is not a Node

  /** `wrapperRef.current` as the outside-click check sees it: absent unless mounted,
      otherwise the subtree of the wrapper as last rendered. */
  function Wrapper(s: State, props: Props, ids: ElementIds): (w: Option<set<NodeId>>)
    ensures w.Some? <==> s.mounted
    ensures w.Some? ==> ids.wrapper in w.value
    ensures w.Some? && props.trigger.Some? ==> props.trigger.value <= w.value
    ensures w.Some? && s.showPopover ==> props.children <= w.value
  {
    if s.mounted then Some(Subtree(Render(s.showPopover, props, ids))) else None
  }

  /** The guard of `handleClickOutside`: the ref is attached, the target is a Node, and
      the wrapper does not contain it. */
  function IsOutside(wrapper: Option<set<NodeId>>, target: Option<NodeId>): (outside: bool)
    ensures wrapper.None? || target.None? ==> !outside
    ensures wrapper.Some? && target.Some? ==> (outside <==> target.value !in wrapper.value)
  {
    wrapper.Some? && target.Some? && target.value !in wrapper.value
  }

  /** `showPopover` after `handleClickOutside`. */
  function AfterOutsideCheck(showPopover: bool, wrapper: Option<set<NodeId>>, target: Option<NodeId>): (r: bool)
    ensures r ==> showPopover
    ensures r != showPopover <==> showPopover && IsOutside(wrapper, target)
  {
    if IsOutside(wrapper, target) then false else showPopover
  }

  /** One entry point applied to the state. Only mount and unmount change `mounted`;
      only mount, `handleClick`, `close` and a mousedown change `showPopover`, and a
      mousedown can only close. */
  function Step(s: State, input: Input, props: Props, ids: ElementIds): (r: State)
    ensures r.mounted == (input.Mount? || (s.mounted && !input.Unmount?))
    ensures input.Click? ==> r.showPopover
    ensures input.CloseClick? ==> !r.showPopover
    ensures input.Mount? ==> r.showPopover == (s.showPopover || props.isVisible)
    ensures input.Unmount? ==> r.showPopover == s.showPopover
    ensures input.MouseDown? ==> (r.showPopover ==> s.showPopover)
  {
    match input
    case Mount => State(if props.isVisible then props.isVisible else s.showPopover, true)
    case Unmount => s.(mounted := false)
    case Click => s.(showPopover := true)
    case CloseClick => s.(showPopover := false)
    case MouseDown(target) => s.(showPopover := AfterOutsideCheck(s.showPopover, Wrapper(s, props, ids), target))
  }

  /** The three transitions of the state machine, as opposed to the lifecycle. */
  predicate IsTransition(input: Input)
  {
    input.Click? || input.CloseClick? || input.MouseDown?
  }

  /** The inputs applied one after another. Transitions never mount or unmount. */
  function Run(s: State, inputs: seq<Input>, props: Props, ids: ElementIds): (r: State)
    ensures (forall i | i in inputs :: IsTransition(i)) ==> r.mounted == s.mounted
    decreases |inputs|
  {
    if inputs == [] then s
    else
      assert inputs[0] in inputs && forall i | i in inputs[1..] :: i in inputs;
      Run(Step(s, inputs[0], props, ids), inputs[1..], props, ids)
  }

  /** Mounting a new instance seeds `showPopover` from `isVisible`, which defaults to false. */
  lemma MountSeedsVisibility(given: GivenProps, ids: ElementIds)
    ensures var s := Step(Initial, Mount, WithDefaults(given), ids);
      s.mounted && s.showPopover == WithDefaults(given).isVisible
    ensures given.isVisible == None ==> !Step(Initial, Mount, WithDefaults(given), ids).showPopover
  {
  }

  /** `handleClick` opens from either state, and a second one changes nothing. */
  lemma ClickOpensIdempotently(s: State, props: Props, ids: ElementIds)
    ensures Step(s, Click, props, ids) == s.(showPopover := true)
    ensures Step(Step(s, Click, props, ids), Click, props, ids) == Step(s, Click, props, ids)
  {
  }

  /** `close` closes from either state; on a closed popover it changes nothing. */
  lemma CloseClosesIdempotently(s: State, props: Props, ids: ElementIds)
    ensures Step(s, CloseClick, props, ids) == s.(showPopover := false)
    ensures !s.showPopover ==> Step(s, CloseClick, props, ids) == s
  {
  }

  /** A mousedown closes the popover iff the wrapper is attached, the target is a Node
      and the target lies outside the wrapper; otherwise nothing changes. */
  lemma MouseDownClosesIffOutside(s: State, target: Option<NodeId>, props: Props, ids: ElementIds)
    ensures var after := Step(s, MouseDown(target), props, ids);
      && after.mounted == s.mounted
      && (after.showPopover != s.showPopover <==>
            s.showPopover && s.mounted && target.Some?
            && target.value !in Subtree(Render(s.showPopover, props, ids)))
      && (after.showPopover == (s.showPopover && !IsOutside(Wrapper(s, props, ids), target)))
  {
  }

  /** A mousedown on the trigger, the close button, the header or the panel body never
      closes the popover: all of them render inside the wrapper. */
  lemma MouseDownOnPopoverKeepsState(s: State, target: NodeId, props: Props, ids: ElementIds)
    requires
      || (props.trigger.Some? && target in props.trigger.value)
      || (s.showPopover && (target == ids.body || target in props.children))
      || (s.showPopover && !props.hidePopoverCloseBtn && target == ids.closeButton)
      || (s.showPopover && props.popOverHeader.Some? && (target == ids.header || target in props.popOverHeader.value))
    ensures Step(s, MouseDown(Some(target)), props, ids) == s
  {
  }

  /** A repeated mousedown on the same target changes nothing more: after one closes the
      popover, the wrapper holds fewer nodes, so the target is still outside. */
  lemma MouseDownIdempotent(s: State, target: Option<NodeId>, props: Props, ids: ElementIds)
    ensures var once := Step(s, MouseDown(target), props, ids);
      Step(once, MouseDown(target), props, ids) == once
  {
  }

  /** Running one sequence of inputs and then another is running their concatenation. */
  lemma {:induction false} RunAppend(s: State, xs: seq<Input>, ys: seq<Input>, props: Props, ids: ElementIds)
    ensures Run(s, xs + ys, props, ids) == Run(Run(s, xs, props, ids), ys, props, ids)
    decreases |xs|
  {
    if xs == [] {
      assert xs + ys == ys;
    } else {
      assert (xs + ys)[1..] == xs[1..] + ys;
      RunAppend(Step(s, xs[0], props, ids), xs[1..], ys, props, ids);
    }
  }

  /** Whatever came before, a final `handleClick` leaves the popover open and a final
      `close` leaves it closed. */
  lemma LastClickDecides(s: State, xs: seq<Input>, props: Props, ids: ElementIds)
    ensures Run(s, xs + [Click], props, ids).showPopover
    ensures !Run(s, xs + [CloseClick], props, ids).showPopover
  {
    RunAppend(s, xs, [Click], props, ids);
    RunAppend(s, xs, [CloseClick], props, ids);
  }

  /** Mousedowns whose targets the wrapper contains (or that are not Nodes) leave the
      state exactly as it was, however many there are. */
  lemma {:induction false} InsideMouseDownsKeepState(s: State, inputs: seq<Input>, props: Props, ids: ElementIds)
    requires forall i | i in inputs :: i.MouseDown? && !IsOutside(Wrapper(s, props, ids), i.target)
    ensures Run(s, inputs, props, ids) == s
    decreases |inputs|
  {
    if inputs != [] {
      assert inputs[0] in inputs;
      assert Step(s, inputs[0], props, ids) == s;
      assert forall i | i in inputs[1..] :: i in inputs;
      InsideMouseDownsKeepState(s, inputs[1..], props, ids);
    }
  }

  /** After unmount no mousedown changes the instance: its wrapper ref is gone, so the
      guard never holds (and the document no longer calls its handler at all). */
  lemma UnmountedIgnoresMouseDowns(s: State, inputs: seq<Input>, props: Props, ids: ElementIds)
    requires forall i | i in inputs :: i.MouseDown?
    ensures var gone := Step(s, Unmount, props, ids);
      Run(gone, inputs, props, ids) == gone
  {
    InsideMouseDownsKeepState(Step(s, Unmount, props, ids), inputs, props, ids);
  }
}
