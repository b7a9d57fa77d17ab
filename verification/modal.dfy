/** modal.service.ts as a transition system. The service publishes the
    modal to show (or none) through a subject and keeps the resolve function
    of the promise handed to whoever opened it. Promises are modelled by
    numbers: `show` hands out a fresh one, and settling a promise appends it
    with its result to a log. */
module ModalService {
  import opened Wrappers

  datatype ModalType = Info | Success | Warning | Error | Confirm

  datatype ModalConfig = ModalConfig(
    title: string,
    message: string,
    kind: ModalType,
    confirmText: Option<string>,
    cancelText: Option<string>)

  /** Promise `id` was resolved with `result`. */
  datatype Settlement = Settlement(id: nat, result: bool)

  /** `emitted` is everything the subject has published, starting with its
      initial `null`; its last entry is the current modal. `pending` is the
      promise whose resolve function is kept, `nextId` the next promise. */
  datatype State = State(
    emitted: seq<Option<ModalConfig>>,
    pending: Option<nat>,
    nextId: nat,
    settled: seq<Settlement>)

  function Init(): State {
    State([None], None, 0, [])
  }

  /** The subject's current value. */
  function Current(s: State): Option<ModalConfig>
    requires s.emitted != []
  {
    s.emitted[|s.emitted| - 1]
  }

  function SettledIds(log: seq<Settlement>): seq<nat> {
    seq(|log|, k requires 0 <= k < |log| => log[k].id)
  }

  /** What every reachable state satisfies: promises are numbered below
      `nextId`, the pending one has not been settled, and no promise has been
      settled twice. */
  predicate Valid(s: State) {
    && s.emitted != []
    && (s.pending.Some? ==> s.pending.value < s.nextId && s.pending.value !in SettledIds(s.settled))
    && (forall k :: 0 <= k < |s.settled| ==> s.settled[k].id < s.nextId)
    && (forall i, j :: 0 <= i < j < |s.settled| ==> s.settled[i].id != s.settled[j].id)
  }

  /** The subject starts out publishing `null` and no promise is pending. */
  lemma InitValid()
    ensures Valid(Init()) && Current(Init()).None? && Init().pending.None?
  {
  }

  // ---------------------------------------------------------------------------
  // Transitions
  // ---------------------------------------------------------------------------

  /** `show(config)`: publishes `config` and keeps the resolve function of a
      fresh promise, returned as `id`; a promise pending before is dropped
      without being settled. */
  function Show(s: State, config: ModalConfig): (r: (State, nat))
    requires Valid(s)
    ensures Valid(r.0) && Current(r.0) == Some(config)
    ensures r.0.pending == Some(r.1) && r.1 == s.nextId
    ensures r.0.settled == s.settled
    ensures forall k :: 0 <= k < |s.settled| ==> s.settled[k].id != r.1
  {
    (State(s.emitted + [Some(config)], Some(s.nextId), s.nextId + 1, s.settled), s.nextId)
  }

  const Accept: string := "Aceptar"

  function ShowInfo(s: State, title: string, message: string): (r: (State, nat))
    requires Valid(s)
    ensures Valid(r.0) && r.0.pending == Some(r.1) && r.1 == s.nextId && r.0.settled == s.settled
    ensures Current(r.0) == Some(ModalConfig(title, message, Info, Some(Accept), None))
  {
    Show(s, ModalConfig(title, message, Info, Some(Accept), None))
  }

  function ShowSuccess(s: State, title: string, message: string): (r: (State, nat))
    requires Valid(s)
    ensures Valid(r.0) && r.0.pending == Some(r.1) && r.1 == s.nextId && r.0.settled == s.settled
    ensures Current(r.0) == Some(ModalConfig(title, message, Success, Some(Accept), None))
  {
    Show(s, ModalConfig(title, message, Success, Some(Accept), None))
  }

  function ShowWarning(s: State, title: string, message: string): (r: (State, nat))
    requires Valid(s)
    ensures Valid(r.0) && r.0.pending == Some(r.1) && r.1 == s.nextId && r.0.settled == s.settled
    ensures Current(r.0) == Some(ModalConfig(title, message, Warning, Some(Accept), None))
  {
    Show(s, ModalConfig(title, message, Warning, Some(Accept), None))
  }

  function ShowError(s: State, title: string, message: string): (r: (State, nat))
    requires Valid(s)
    ensures Valid(r.0) && r.0.pending == Some(r.1) && r.1 == s.nextId && r.0.settled == s.settled
    ensures Current(r.0) == Some(ModalConfig(title, message, Error, Some(Accept), None))
  {
    Show(s, ModalConfig(title, message, Error, Some(Accept), None))
  }

  /** `showConfirm(title, message, confirmText?, cancelText?)`: a confirm
      modal whose button texts default to "Confirmar" and "Cancelar". */
  function ShowConfirm(s: State, title: string, message: string,
                       confirmText: Option<string>, cancelText: Option<string>): (r: (State, nat))
    requires Valid(s)
    ensures Valid(r.0) && r.0.pending == Some(r.1) && r.1 == s.nextId && r.0.settled == s.settled
    ensures Current(r.0).Some? && Current(r.0).value.kind == Confirm
    ensures Current(r.0).value.title == title && Current(r.0).value.message == message
    ensures Current(r.0).value.confirmText == Some(if confirmText.Some? then confirmText.value else "Confirmar")
    ensures Current(r.0).value.cancelText == Some(if cancelText.Some? then cancelText.value else "Cancelar")
  {
    Show(s, ModalConfig(title, message, Confirm, Some(confirmText.GetOr("Confirmar")), Some(cancelText.GetOr("Cancelar"))))
  }

  /** `close()`: publishes "no modal"; the pending promise stays pending. */
  function Close(s: State): (r: State)
    requires Valid(s)
    ensures Valid(r) && Current(r).None?
    ensures r.pending == s.pending && r.settled == s.settled && r.nextId == s.nextId
  {
    s.(emitted := s.emitted + [None])
  }

  /** Settles the pending promise, if any, with `result`, then closes. */
  function Resolve(s: State, result: bool): (r: State)
    requires Valid(s)
    ensures Valid(r) && Current(r).None? && r.pending.None? && r.nextId == s.nextId
    ensures s.pending.Some? ==> r.settled == s.settled + [Settlement(s.pending.value, result)]
    ensures s.pending.None? ==> r.settled == s.settled
  {
    var settled := if s.pending.Some? then s.settled + [Settlement(s.pending.value, result)] else s.settled;
    assert forall k :: 0 <= k < |s.settled| ==> s.settled[k].id in SettledIds(s.settled) by {
      forall k | 0 <= k < |s.settled| ensures s.settled[k].id in SettledIds(s.settled) {
        assert SettledIds(s.settled)[k] == s.settled[k].id;
      }
    }
    Close(s.(pending := None, settled := settled))
  }

  /** `confirm()`: settles the pending promise with true. */
  function ConfirmModal(s: State): (r: State)
    requires Valid(s)
    ensures Valid(r) && Current(r).None? && r.pending.None?
    ensures s.pending.Some? ==> r.settled == s.settled + [Settlement(s.pending.value, true)]
    ensures s.pending.None? ==> r.settled == s.settled
  {
    Resolve(s, true)
  }

  /** `cancel()`: settles the pending promise with false. */
  function CancelModal(s: State): (r: State)
    requires Valid(s)
    ensures Valid(r) && Current(r).None? && r.pending.None?
    ensures s.pending.Some? ==> r.settled == s.settled + [Settlement(s.pending.value, false)]
    ensures s.pending.None? ==> r.settled == s.settled
  {
    Resolve(s, false)
  }

  // ---------------------------------------------------------------------------
  // Runs
  // ---------------------------------------------------------------------------

  datatype Event = Open(config: ModalConfig) | ConfirmEvent | CancelEvent | CloseEvent

  /** Each event is one service call, and each call publishes exactly one
      value on the subject. */
  function Step(s: State, e: Event): (r: State)
    requires Valid(s)
    ensures Valid(r)
    ensures r.emitted == s.emitted + [Current(r)]
    ensures |s.settled| <= |r.settled| <= |s.settled| + 1 && r.settled[..|s.settled|] == s.settled
    ensures r.nextId >= s.nextId
  {
    match e
    case Open(config) => Show(s, config).0
    case ConfirmEvent =>
      var r := ConfirmModal(s);
      assert r.settled[..|s.settled|] == s.settled;
      r
    case CancelEvent =>
      var r := CancelModal(s);
      assert r.settled[..|s.settled|] == s.settled;
      r
    case CloseEvent => Close(s)
  }

  function Run(s: State, events: seq<Event>): (r: State)
    requires Valid(s)
    ensures Valid(r)
    ensures |r.settled| >= |s.settled| && r.settled[..|s.settled|] == s.settled
    ensures r.nextId >= s.nextId
    decreases |events|
  {
    if events == [] then s
    else
      var t := Step(s, events[0]);
      var r := Run(t, events[1..]);
      assert r.settled[..|s.settled|] == r.settled[..|t.settled|][..|s.settled|];
      r
  }

  /** Whatever happens, no promise is settled twice. */
  lemma SettledAtMostOnce(events: seq<Event>)
    ensures var s := Run(Init(), events);
      forall i, j :: 0 <= i < j < |s.settled| ==> s.settled[i].id != s.settled[j].id
  {
  }

  /** A promise handed out and no longer pending, but not settled, is lost
      for good: no later step settles it. */
  predicate Abandoned(s: State, id: nat) {
    id < s.nextId && s.pending != Some(id) && id !in SettledIds(s.settled)
  }

  lemma {:induction false} AbandonedStaysUnsettled(s: State, events: seq<Event>, id: nat)
    requires Valid(s) && Abandoned(s, id)
    ensures Abandoned(Run(s, events), id)
    decreases |events|
  {
    if events != [] {
      var t := Step(s, events[0]);
      assert SettledIds(t.settled) == SettledIds(s.settled) || SettledIds(t.settled) == SettledIds(s.settled) + [s.pending.value];
      AbandonedStaysUnsettled(t, events[1..], id);
    }
  }

  /** Opening a modal over one that is waiting drops the first promise: it
      is never settled, whatever the user does afterwards. */
  lemma ReplacedNeverSettled(s: State, config: ModalConfig, events: seq<Event>)
    requires Valid(s) && s.pending.Some?
    ensures s.pending.value !in SettledIds(Run(Show(s, config).0, events).settled)
  {
    AbandonedStaysUnsettled(Show(s, config).0, events, s.pending.value);
  }

  /** Confirming settles the promise the opener is waiting for with true,
      cancelling with false; closing settles nothing and leaves it waiting. */
  lemma OpenThenAnswer(s: State, config: ModalConfig)
    requires Valid(s)
    ensures var (t, id) := Show(s, config);
      && ConfirmModal(t).settled == s.settled + [Settlement(id, true)]
      && CancelModal(t).settled == s.settled + [Settlement(id, false)]
      && Close(t).pending == Some(id) && Close(t).settled == s.settled
  {
  }
}

/** The dialog of modal.component.ts: it shows whatever the service
    published last, styles it by type, and forwards its two buttons. */
module ModalComponent {
  import opened Wrappers
  import opened ModalService

  /** The component: the service it was given and its own `modal` field,
      which starts out `null`. */
  datatype Dialog = Dialog(service: State, modal: Option<ModalConfig>)

  function Create(s: State): Dialog {
    Dialog(s, None)
  }

  /** The subscription's callback run on each value in turn: every value
      overwrites the field, so the last one delivered is what stays. */
  function Deliver(modal: Option<ModalConfig>, values: seq<Option<ModalConfig>>): (m: Option<ModalConfig>)
    ensures values == [] ==> m == modal
    ensures values != [] ==> m == values[|values| - 1]
    decreases |values|
  {
    if values == [] then modal else Deliver(values[0], values[1..])
  }

  /** `ngOnInit()`: subscribing to a behaviour subject replays its current
      value to the callback. */
  function OnInit(d: Dialog): (r: Dialog)
    requires Valid(d.service)
    ensures r.service == d.service && r.modal == Current(d.service)
  {
    d.(modal := Deliver(d.modal, [Current(d.service)]))
  }

  /** A service call made while the dialog is subscribed: the values it
      publishes are delivered to the field. */
  function Act(d: Dialog, e: Event): (r: Dialog)
    requires Valid(d.service)
    ensures r.service == Step(d.service, e)
    ensures r.modal == Current(r.service)
  {
    var t := Step(d.service, e);
    Dialog(t, Deliver(d.modal, t.emitted[|d.service.emitted|..]))
  }

  function RunDialog(d: Dialog, events: seq<Event>): (r: Dialog)
    requires Valid(d.service)
    ensures Valid(r.service)
    decreases |events|
  {
    if events == [] then d else RunDialog(Act(d, events[0]), events[1..])
  }

  /** Once the dialog has subscribed, whatever the service is asked to do,
      the dialog's field holds what the service published last, and the
      service went through the same run as without a dialog. */
  lemma {:induction false} FieldFollowsSubject(s: State, events: seq<Event>)
    requires Valid(s)
    ensures var d := RunDialog(OnInit(Create(s)), events);
      d.service == Run(s, events) && d.modal == Current(d.service)
  {
    FieldFollowsFrom(OnInit(Create(s)), events);
  }

  lemma {:induction false} FieldFollowsFrom(d: Dialog, events: seq<Event>)
    requires Valid(d.service) && d.modal == Current(d.service)
    ensures var r := RunDialog(d, events);
      r.service == Run(d.service, events) && r.modal == Current(r.service)
    decreases |events|
  {
    if events != [] {
      FieldFollowsFrom(Act(d, events[0]), events[1..]);
    }
  }

  /** `onConfirm()`: the service settles the pending promise with true and
      the dialog, told of the close, shows nothing. */
  function OnConfirm(d: Dialog): (r: Dialog)
    requires Valid(d.service)
    ensures r.service == ConfirmModal(d.service) && r.modal.None? && r.service.pending.None?
  {
    Act(d, ConfirmEvent)
  }

  /** `onCancel()`: the same with false. */
  function OnCancel(d: Dialog): (r: Dialog)
    requires Valid(d.service)
    ensures r.service == CancelModal(d.service) && r.modal.None? && r.service.pending.None?
  {
    Act(d, CancelEvent)
  }

  /** `getIconClass()`. */
  function GetIconClass(modal: Option<ModalConfig>): (r: string)
    ensures r == "" <==> modal.None?
    ensures modal.Some? ==> r == IconFor(modal.value.kind)
  {
    if modal.None? then "" else IconFor(modal.value.kind)
  }

  /** The icon classes of the `switch` in `getIconClass()`. */
  function IconFor(kind: ModalType): string {
    match kind
    case Success => "bi-check-circle-fill text-success"
    case Error => "bi-x-circle-fill text-danger"
    case Warning => "bi-exclamation-triangle-fill text-warning"
    case Confirm => "bi-question-circle-fill text-primary"
    case Info => "bi-info-circle-fill text-info"
  }

  /** `getHeaderClass()`. */
  function GetHeaderClass(modal: Option<ModalConfig>): (r: string)
    ensures r == "" <==> modal.None?
    ensures modal.Some? ==> r == HeaderFor(modal.value.kind)
  {
    if modal.None? then "" else HeaderFor(modal.value.kind)
  }

  /** The border classes of the `switch` in `getHeaderClass()`. */
  function HeaderFor(kind: ModalType): string {
    match kind
    case Success => "border-success"
    case Error => "border-danger"
    case Warning => "border-warning"
    case _ => "border-primary"
  }

  /** Nothing shown, no classes; otherwise the icon tells the five types
      apart while the header tells only four, info and confirm sharing the
      primary border. */
  lemma Styling(a: Option<ModalConfig>, b: Option<ModalConfig>)
    ensures a.None? ==> GetIconClass(a) == "" && GetHeaderClass(a) == ""
    ensures a.Some? ==> GetIconClass(a) != "" && GetHeaderClass(a) != ""
    ensures a.Some? && b.Some? ==> (GetIconClass(a) == GetIconClass(b) <==> a.value.kind == b.value.kind)
    ensures a.Some? && b.Some? ==> (GetHeaderClass(a) == GetHeaderClass(b) <==>
      a.value.kind == b.value.kind || (a.value.kind in {Info, Confirm} && b.value.kind in {Info, Confirm}))
  {
    if a.Some? {
      ClassesNonEmpty(a.value.kind);
    }
    if a.Some? && b.Some? {
      IconsDiffer(a.value.kind, b.value.kind);
      HeadersDiffer(a.value.kind, b.value.kind);
    }
  }

  lemma ClassesNonEmpty(x: ModalType)
    ensures IconFor(x) != "" && HeaderFor(x) != ""
  {
    match x
    case Success =>
    case Error =>
    case Warning =>
    case Confirm =>
    case Info =>
  }

  lemma IconsDiffer(x: ModalType, y: ModalType)
    ensures IconFor(x) == IconFor(y) <==> x == y
  {
  }

  lemma HeadersDiffer(x: ModalType, y: ModalType)
    ensures HeaderFor(x) == HeaderFor(y) <==> x == y || (x in {Info, Confirm} && y in {Info, Confirm})
  {
  }

  /** What the dialog shows after each service call. */
  lemma DialogFollowsService(d: Dialog, title: string, message: string)
    requires Valid(d.service)
    ensures GetIconClass(Act(d, Open(ModalConfig(title, message, Success, Some(Accept), None))).modal)
      == "bi-check-circle-fill text-success"
    ensures GetHeaderClass(Act(d, Open(ModalConfig(title, message, Confirm, Some("Confirmar"), Some("Cancelar")))).modal)
      == "border-primary"
    ensures GetHeaderClass(Act(d, Open(ModalConfig(title, message, Info, Some(Accept), None))).modal) == "border-primary"
    ensures GetIconClass(Act(d, CloseEvent).modal) == "" && GetIconClass(OnConfirm(d).modal) == ""
  {
    Shows(d, ModalConfig(title, message, Success, Some(Accept), None));
    Shows(d, ModalConfig(title, message, Confirm, Some("Confirmar"), Some("Cancelar")));
    Shows(d, ModalConfig(title, message, Info, Some(Accept), None));
  }

  lemma Shows(d: Dialog, config: ModalConfig)
    requires Valid(d.service)
    ensures Act(d, Open(config)).modal == Some(config)
  {
    assert Step(d.service, Open(config)) == Show(d.service, config).0;
  }
}
