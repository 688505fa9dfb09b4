/** What `Popover.render` produces, as a function of the `showPopover` state and the
    props, and the set of DOM nodes that the wrapper `div` contains. */
module View {
  import opened Wrappers

  /** Identity of a DOM node. */
  type NodeId = int

  /** The DOM nodes an externally supplied React node renders to: its root and all of
      its descendants. */
  type Content = set<NodeId>

  /** The instance handler that a rendered element's `onClick` is bound to. */
  datatype Handler = HandleClick | Close

  /** The props the component reads once `defaultProps` are applied. `className` only
      styles the wrapper and is left out. */
  datatype Props = Props(
    isVisible: bool,
    hidePopoverCloseBtn: bool,
    popOverHeader: Option<Content>,
    trigger: Option<Content>,
    children: Content)

  /** The props as a caller passes them; `None` is a prop the caller omitted. */
  datatype GivenProps = GivenProps(
    isVisible: Option<bool>,
    hidePopoverCloseBtn: Option<bool>,
    popOverHeader: Option<Content>,
    trigger: Option<Content>,
    children: Content)

  /** `defaultProps`: an omitted `isVisible` or `hidePopoverCloseBtn` is `false`; a
      passed value is kept; the other props have no default. */
  function WithDefaults(given: GivenProps): (p: Props)
    ensures given.isVisible == None ==> !p.isVisible
    ensures given.hidePopoverCloseBtn == None ==> !p.hidePopoverCloseBtn
    ensures given.isVisible.Some? ==> p.isVisible == given.isVisible.value
    ensures given.hidePopoverCloseBtn.Some? ==> p.hidePopoverCloseBtn == given.hidePopoverCloseBtn.value
    ensures p.popOverHeader == given.popOverHeader && p.trigger == given.trigger
    ensures p.children == given.children
  {
    Props(
      match given.isVisible case None => false case Some(b) => b,
      match given.hidePopoverCloseBtn case None => false case Some(b) => b,
      given.popOverHeader, given.trigger, given.children)
  }

  /** The nodes of the elements `render` creates itself. The wrapper keeps its node for
      the life of the instance; the dialog and its parts get new nodes each time the
      popover opens, which the model does not distinguish (a detached node is never the
      target of a mousedown). */
  datatype ElementIds = ElementIds(
    wrapper: NodeId, dialog: NodeId, closeButton: NodeId, header: NodeId, body: NodeId)

  /** The cloned trigger element, with `onClick` bound to the instance. */
  datatype Trigger = Trigger(nodes: Content, onClick: Handler)

  /** The `popover__close` button. */
  datatype CloseButton = CloseButton(id: NodeId, onClick: Handler)

  /** The `h3` holding the header. */
  datatype Heading = Heading(id: NodeId, content: Content)

  /** The `role="dialog"` element: close button, header, and the body holding `children`. */
  datatype Dialog = Dialog(
    id: NodeId,
    closeButton: Option<CloseButton>,
    header: Option<Heading>,
    body: NodeId,
    children: Content)

  /** The wrapper `div` (the element `wrapperRef` points to) and what it holds. */
  datatype Tree = Tree(wrapper: NodeId, trigger: Option<Trigger>, dialog: Option<Dialog>)

  function Render(showPopover: bool, props: Props, ids: ElementIds): (t: Tree)
    ensures t.wrapper == ids.wrapper
    ensures t.dialog.Some? <==> showPopover
    ensures t.trigger.Some? <==> props.trigger.Some?
    ensures ids.wrapper in Subtree(t)
  {
    var trigger := if props.trigger.Some? then Some(Trigger(props.trigger.value, HandleClick)) else None;
    var closeButton := if props.hidePopoverCloseBtn then None else Some(CloseButton(ids.closeButton, Close));
    var header := if props.popOverHeader.Some? then Some(Heading(ids.header, props.popOverHeader.value)) else None;
    Tree(ids.wrapper, trigger,
         if showPopover then Some(Dialog(ids.dialog, closeButton, header, ids.body, props.children)) else None)
  }

  /** The nodes of a rendered dialog, itself included. */
  function DialogNodes(d: Dialog): set<NodeId>
  {
    {d.id, d.body} + d.children
    + (if d.closeButton.Some? then {d.closeButton.value.id} else {})
    + (if d.header.Some? then {d.header.value.id} + d.header.value.content else {})
  }

  /** The nodes for which `wrapper.contains` answers true: `Node.contains` is reflexive,
      so the wrapper itself is one of them. */
  function Subtree(t: Tree): set<NodeId>
  {
    {t.wrapper}
    + (if t.trigger.Some? then t.trigger.value.nodes else {})
    + (if t.dialog.Some? then DialogNodes(t.dialog.value) else {})
  }

  /** The conditions in `render`: the trigger is rendered whenever it is supplied and
      opens the popover; the dialog appears iff `showPopover`; the close button iff the
      dialog does and it is not hidden, and it closes the popover; the header iff the
      dialog does and a header is given; the body always holds the children. */
  lemma RenderConditions(showPopover: bool, props: Props, ids: ElementIds)
    ensures var t := Render(showPopover, props, ids);
      && t.wrapper == ids.wrapper
      && (t.trigger.Some? <==> props.trigger.Some?)
      && (t.trigger.Some? ==> t.trigger.value == Trigger(props.trigger.value, HandleClick))
      && (t.dialog.Some? <==> showPopover)
      && (t.dialog.Some? ==>
            && (t.dialog.value.closeButton.Some? <==> !props.hidePopoverCloseBtn)
            && (t.dialog.value.closeButton.Some? ==> t.dialog.value.closeButton.value.onClick == Close)
            && (t.dialog.value.header.Some? <==> props.popOverHeader.Some?)
            && t.dialog.value.children == props.children)
  {
  }

  /** Everything `render` shows (the trigger, the close button, the header, the body and
      its children) lies inside the wrapper, so `wrapper.contains` is true of it. */
  lemma RenderedPartsInsideWrapper(showPopover: bool, props: Props, ids: ElementIds)
    ensures var nodes := Subtree(Render(showPopover, props, ids));
      && ids.wrapper in nodes
      && (props.trigger.Some? ==> props.trigger.value <= nodes)
      && (showPopover ==> ids.dialog in nodes && ids.body in nodes && props.children <= nodes)
      && (showPopover && !props.hidePopoverCloseBtn ==> ids.closeButton in nodes)
      && (showPopover && props.popOverHeader.Some? ==>
            ids.header in nodes && props.popOverHeader.value <= nodes)
  {
  }

  /** Opening the popover only adds nodes to the wrapper; closing only removes them. */
  lemma SubtreeGrowsWhenOpen(props: Props, ids: ElementIds)
    ensures Subtree(Render(false, props, ids)) <= Subtree(Render(true, props, ids))
  {
  }
}
