# Popover visibility model

A Dafny model of the `Popover` React component of atomic-react-components
(`lib/components/molecules/Popover/Popover.js`). The popover shows a floating dialog
next to a trigger element. It opens when the trigger is clicked. It closes when its
close button is clicked, or when a `mousedown` anywhere in the document lands outside
the wrapper `div` that holds both the trigger and the dialog.

The model has five modules:

- `Wrappers`: the `Option` type. `None` stands for an absent or falsy value.
- `View`: the props, `defaultProps`, what `render` returns (`Render`) and the nodes the
  wrapper contains (`Subtree`). DOM containment is set membership over node ids, and the
  nodes `render` creates itself are named by `ElementIds`.
- `Visibility`: the state machine as pure functions. `Step` applies one input: mount,
  unmount, `handleClick`, `close`, or a document `mousedown` reaching
  `handleClickOutside`. `Run` folds `Step` over a sequence of inputs. The lemmas state
  what each entry point promises and what sequences of them do.
- `Listeners`: the document's listener list under `addEventListener` (no duplicate
  registration) and `removeEventListener` (drops the matching entry).
- `PopoverComponent`: the `Document` and `Popover` classes. Their fields change in place,
  as in the source. Each `Popover` method's postcondition ties the new state to
  `Visibility.Step` and to the listener functions. `Scenario` drives one instance
  through a full open/close/unmount cycle.

`setState` is modelled as an immediate assignment. The wrapper ref is attached exactly
while the instance is mounted. The subtree it contains is the one rendered for the
current `showPopover`.

## Model

| member | source | states |
|---|---|---|
| View.WithDefaults | lib/components/molecules/Popover/Popover.js:15-18 | an omitted `isVisible` or `hidePopoverCloseBtn` becomes false; passed values and the other props are kept |
| View.RenderConditions | lib/components/molecules/Popover/Popover.js:101-131 | the trigger is rendered iff supplied and is bound to `handleClick`; the dialog appears iff `showPopover`; the close button appears iff the dialog does and `hidePopoverCloseBtn` is false, and it is bound to `close`; the header appears iff the dialog does and a header is given; the body holds the children |
| View.RenderedPartsInsideWrapper | lib/components/molecules/Popover/Popover.js:112-130 | the wrapper contains itself, the trigger and every shown part of the dialog |
| View.SubtreeGrowsWhenOpen | lib/components/molecules/Popover/Popover.js:119-129 | the open wrapper contains every node the closed wrapper contains |
| View.Render | lib/components/molecules/Popover/Popover.js:101-131 | the wrapper is always rendered and contains itself; the dialog is present iff `showPopover`; the trigger iff it is supplied (the full conditions are in `RenderConditions`) |
| Visibility.Wrapper | lib/components/molecules/Popover/Popover.js:33 | the ref is attached iff the instance is mounted; when attached it contains the wrapper, the trigger and, while open, the children |
| Visibility.IsOutside | lib/components/molecules/Popover/Popover.js:67-72 | false whenever the ref is unattached or the target is not a Node; otherwise true iff the wrapper does not contain the target |
| Visibility.AfterOutsideCheck | lib/components/molecules/Popover/Popover.js:65-77 | the check never opens the popover; it changes the state iff the popover is open and the target is outside |
| Visibility.Step | lib/components/molecules/Popover/Popover.js:40-99 | only mount and unmount change `mounted`; `handleClick` opens, `close` closes, mount opens when `isVisible`, unmount keeps `showPopover`, a mousedown can only close (single-step properties in the lemmas below) |
| Visibility.Run | lib/components/molecules/Popover/Popover.js:65-99 | a sequence made only of `handleClick`, `close` and mousedowns never changes whether the instance is mounted |
| Visibility.MountSeedsVisibility | lib/components/molecules/Popover/Popover.js:15-49 | after mounting a new instance, `showPopover` equals `isVisible`, and it is false when `isVisible` is omitted |
| Visibility.ClickOpensIdempotently | lib/components/molecules/Popover/Popover.js:84-88 | `handleClick` opens from either state and changes nothing else; a second call changes nothing |
| Visibility.CloseClosesIdempotently | lib/components/molecules/Popover/Popover.js:95-99 | `close` closes from either state and changes nothing else; on a closed popover it changes nothing |
| Visibility.MouseDownClosesIffOutside | lib/components/molecules/Popover/Popover.js:65-77 | a mousedown changes the state iff the popover is open, the wrapper is attached, the target is a Node and the wrapper does not contain it; the popover is then closed |
| Visibility.MouseDownOnPopoverKeepsState | lib/components/molecules/Popover/Popover.js:65-130 | a mousedown on the trigger, the close button, the header or the body never changes the state |
| Visibility.MouseDownIdempotent | lib/components/molecules/Popover/Popover.js:65-77 | a second mousedown on the same target changes nothing |
| Visibility.RunAppend | lib/components/molecules/Popover/Popover.js:65-99 | running two input sequences one after the other equals running their concatenation |
| Visibility.LastClickDecides | lib/components/molecules/Popover/Popover.js:84-99 | after any history, a final `handleClick` leaves the popover open and a final `close` leaves it closed |
| Visibility.InsideMouseDownsKeepState | lib/components/molecules/Popover/Popover.js:65-77 | any number of mousedowns that fail the outside guard leave the state unchanged |
| Visibility.UnmountedIgnoresMouseDowns | lib/components/molecules/Popover/Popover.js:55-77 | after unmount, no sequence of mousedowns changes the instance |
| Listeners.Added | lib/components/molecules/Popover/Popover.js:41 | registering adds the listener exactly once: the list gains it at the end unless it already held it |
| Listeners.Without | lib/components/molecules/Popover/Popover.js:56 | removing drops the listener and keeps every other entry |
| Listeners.WithoutAbsent | lib/components/molecules/Popover/Popover.js:56 | removing a listener that is not registered changes nothing |
| Listeners.WithoutAppended | lib/components/molecules/Popover/Popover.js:41-56 | removing a listener undoes appending it |
| Listeners.AddThenRemoveRestores | lib/components/molecules/Popover/Popover.js:40-57 | mount adds one entry and unmount removes that same entry, so the document's list is restored exactly |
| PopoverComponent.Document.AddEventListener | lib/components/molecules/Popover/Popover.js:41 | the document's list becomes `Added` of the old list |
| PopoverComponent.Document.RemoveEventListener | lib/components/molecules/Popover/Popover.js:56 | the document's list becomes `Without` of the old list |
| PopoverComponent.Document.DispatchMouseDown | lib/components/molecules/Popover/Popover.js:65-77 | every registered popover runs its own outside check against its own wrapper; unregistered popovers do not change |
| PopoverComponent.Popover.constructor | lib/components/molecules/Popover/Popover.js:14-33 | defaults applied; `showPopover` false; not mounted |
| PopoverComponent.Popover.Mount | lib/components/molecules/Popover/Popover.js:40-49 | registers the instance's `mousedown` handler once; `showPopover` becomes true when `isVisible`, else stays as it was |
| PopoverComponent.Popover.Unmount | lib/components/molecules/Popover/Popover.js:55-57 | removes exactly that handler, leaves other registrations and `showPopover` alone; if it was the instance's only registration, no document mousedown reaches the instance any more |
| PopoverComponent.Popover.HandleClickOutside | lib/components/molecules/Popover/Popover.js:65-77 | closes iff the wrapper is attached, the target is a Node and outside the wrapper; otherwise no change; agrees with `Step` |
| PopoverComponent.Popover.HandleClick | lib/components/molecules/Popover/Popover.js:84-88 | `showPopover` becomes true; agrees with `Step` |
| PopoverComponent.Popover.Close | lib/components/molecules/Popover/Popover.js:95-99 | `showPopover` becomes false; agrees with `Step` |
| PopoverComponent.Scenario | lib/components/molecules/Popover/Popover.js:40-99 | mount closed, open, outside mousedown closes, reopen, body mousedown keeps open, close button closes, reopen, unmount, outside mousedown no longer closes |

## Notes on the code

- `close` and `handleClickOutside` assign `false` whether or not the popover is open,
  and `handleClick` assigns `true` whether or not it is open (Popover.js:65-99).
- `componentDidMount` assigns only when `isVisible` is truthy (Popover.js:44-48), so an
  instance that is already open stays open.
- The listener is registered with `useCapture` false (Popover.js:41).

## Left out

- Styling: `styled-components`, `Popover.style`, `classnames` and the `className` prop.
- `React.cloneElement`: only the binding of the trigger's `onClick` to `handleClick` is
  modelled, not element identity.
- DOM details: `Node.contains` is membership in a set of node ids. `instanceof Node` is
  the `Option` of the target. Event phases and `stopPropagation` are not modelled; every
  document `mousedown` reaches every registered handler.
- React scheduling: `setState` is an immediate assignment, so batching and re-render
  timing are not modelled. React ignores `setState` on an unmounted instance; the model
  still assigns.
- `PureComponent` re-render skipping, and props that change after mount: props are
  fixed per instance.
- Falsy headers: a header is present or absent. A header of numeric `0` would render the
  text "0"; that is not modelled.
- `ElementIds`: the dialog and its parts get fresh DOM nodes each time the popover
  opens; the model reuses one set of ids per instance. No property changes, since a
  detached node is never the target of a mousedown.
- Flow type imports (`./types`) are not part of this model.
