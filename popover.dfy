/** The `Popover` component as an object: its `showPopover` state and lifecycle, the
    document whose `mousedown` listeners it registers, and its three handlers. */
module PopoverComponent {
  import opened Wrappers
  import opened View
  import opened Visibility
  import opened Listeners

  const MouseDownEvent := "mousedown"

  /** A registration `addEventListener(kind, handler, useCapture)`. The handler is the
      instance's own `handleClickOutside` arrow function, so the instance identifies it. */
  datatype Listener = Listener(kind: string, handler: Popover, useCapture: bool)

  /** The handlers in a listener list that a `mousedown` reaches. */
  function HandlersOf(listeners: seq<Listener>): set<Popover>
  {
    set l | l in listeners && l.kind == MouseDownEvent :: l.handler
  }

  /** The global `document`, reduced to its listener list. */
  class Document {
    var listeners: seq<Listener>

    constructor ()
      ensures listeners == []
    {
      listeners := [];
    }

    method AddEventListener(l: Listener)
      modifies this
      ensures listeners == Added(old(listeners), l)
    {
      if l !in listeners {
        listeners := listeners + [l];
      }
    }

    method RemoveEventListener(l: Listener)
      modifies this
      ensures listeners == Without(old(listeners), l)
    {
      listeners := Without(listeners, l);
    }

    /** The popovers a `mousedown` on the document reaches. */
    function MouseDownHandlers(): set<Popover>
      reads this
    {
      HandlersOf(listeners)
    }

    /** A `mousedown` anywhere in the document: every registered handler runs its own
        outside check against its own wrapper; no other popover changes. */
    method DispatchMouseDown(target: Option<NodeId>)
      modifies MouseDownHandlers()
      ensures forall p | p in old(MouseDownHandlers()) ::
        p.showPopover == AfterOutsideCheck(old(p.showPopover), old(p.WrapperNodes()), target)
        && p.mounted == old(p.mounted)
      ensures forall p: Popover | old(allocated(p)) && p !in old(MouseDownHandlers()) ::
        p.showPopover == old(p.showPopover)
    {
      forall p | p in MouseDownHandlers() {
        p.showPopover := AfterOutsideCheck(p.showPopover, p.WrapperNodes(), target);
      }
    }
  }

  class Popover {
    const props: Props
    const ids: ElementIds
    var showPopover: bool
    var mounted: bool

    /** A new instance: `defaultProps` applied, `showPopover` false, not mounted. */
    constructor (given: GivenProps, ids: ElementIds)
      ensures props == WithDefaults(given) && this.ids == ids
      ensures Snapshot() == Initial
    {
      props := WithDefaults(given);
      this.ids := ids;
      showPopover := false;
      mounted := false;
    }

    function Snapshot(): State
      reads this
    {
      State(showPopover, mounted)
    }

    /** The nodes `wrapperRef.current.contains` answers true for, when it is attached. */
    function WrapperNodes(): Option<set<NodeId>>
      reads this
    {
      Wrapper(Snapshot(), props, ids)
    }

    /** The registration made by `componentDidMount`. */
    function MouseDownListener(): Listener
    {
      Listener(MouseDownEvent, this, false)
    }

    /** `componentDidMount`: registers the handler on the document and opens the
        popover when `isVisible` is set. Other registrations are untouched. */
    method Mount(document: Document)
      modifies this, document
      ensures Snapshot() == Step(old(Snapshot()), Input.Mount, props, ids)
      ensures mounted && showPopover == (old(showPopover) || props.isVisible)
      ensures document.listeners == Added(old(document.listeners), MouseDownListener())
      ensures this in document.MouseDownHandlers()
    {
      document.AddEventListener(MouseDownListener());
      mounted := true;
      if props.isVisible {
        showPopover := props.isVisible;
      }
    }

    /** `componentWillUnmount`: removes the handler from the document, leaving every
        other registration in place; `showPopover` is untouched. */
    method Unmount(document: Document)
      modifies this, document
      ensures Snapshot() == Step(old(Snapshot()), Input.Unmount, props, ids)
      ensures !mounted && showPopover == old(showPopover)
      ensures document.listeners == Without(old(document.listeners), MouseDownListener())
      ensures MouseDownListener() !in document.listeners
      ensures (forall l | l in old(document.listeners) && l.handler == this :: l == MouseDownListener())
        ==> this !in document.MouseDownHandlers()
    {
      document.RemoveEventListener(MouseDownListener());
      mounted := false;
    }

    /** `handleClickOutside`: closes only when the wrapper is attached, the target is a
        Node and the wrapper does not contain it. */
    method HandleClickOutside(target: Option<NodeId>)
      modifies this`showPopover
      ensures Snapshot() == Step(old(Snapshot()), MouseDown(target), props, ids)
      ensures showPopover == AfterOutsideCheck(old(showPopover), old(WrapperNodes()), target)
    {
      if WrapperNodes().Some? && target.Some? && target.value !in WrapperNodes().value {
        showPopover := false;
      }
    }

    /** `handleClick`, bound to the trigger: opens the popover. */
    method HandleClick()
      modifies this`showPopover
      ensures Snapshot() == Step(old(Snapshot()), Click, props, ids)
      ensures showPopover
    {
      showPopover := true;
    }

    /** `close`, bound to the close button: closes the popover. */
    method Close()
      modifies this`showPopover
      ensures Snapshot() == Step(old(Snapshot()), CloseClick, props, ids)
      ensures !showPopover
    {
      showPopover := false;
    }
  }

  /** The props and element ids of the instance in `Scenario`: a trigger rendering
      node 10 and children rendering node 20. */
  const ScenarioProps := GivenProps(None, None, None, Some({10}), {20})
  const ScenarioIds := ElementIds(1, 2, 3, 4, 5)

  /** The open wrapper of that instance contains the body's children but not node 99. */
  lemma ScenarioWrapper()
    ensures var nodes := Subtree(Render(true, WithDefaults(ScenarioProps), ScenarioIds));
      20 in nodes && 99 !in nodes
  {
  }

  /** A single mousedown registration reaches exactly its instance; none reaches nobody. */
  lemma HandlersOfSingle(p: Popover)
    ensures HandlersOf([Listener(MouseDownEvent, p, false)]) == {p}
    ensures HandlersOf([]) == {}
  {
  }

  /** A popover mounted closed is opened by its trigger, closed by a mousedown outside,
      reopened, kept open by a mousedown on its body, closed by its close button, opened
      once more and unmounted; a later mousedown outside no longer reaches it. The
      result is `showPopover` after each of these steps. */
  method Scenario() returns (trace: seq<bool>)
    ensures trace == [false, true, false, true, true, false, true, true]
  {
    var document := new Document();
    var p := new Popover(ScenarioProps, ScenarioIds);
    ScenarioWrapper();
    HandlersOfSingle(p);
    p.Mount(document);
    var mounted := p.showPopover;
    p.HandleClick();
    var clicked := p.showPopover;
    document.DispatchMouseDown(Some(99));
    var outside := p.showPopover;
    p.HandleClick();
    var reopened := p.showPopover;
    document.DispatchMouseDown(Some(20));
    var inside := p.showPopover;
    p.Close();
    var closed := p.showPopover;
    p.HandleClick();
    var openAgain := p.showPopover;
    p.Unmount(document);
    document.DispatchMouseDown(Some(99));
    var afterUnmount := p.showPopover;
    trace := [mounted, clicked, outside, reopened, inside, closed, openAgain, afterUnmount];
  }
}
