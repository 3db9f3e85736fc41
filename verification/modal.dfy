/** The single-slot modal of `useModal`: one state record that `showModal`
    overwrites and `closeModal` hides. There is no queue, so after a run of
    events the visible content is that of the last `showModal`. */
module Modal {
  import opened Wrappers

  datatype ModalType = Error | Success | Warning | Info

  datatype ModalState = ModalState(isOpen: bool, title: string, message: string, kind: ModalType)

  /** The state before anything is shown: closed, empty, of type `info`. */
  function InitialModal(): (m: ModalState)
    ensures !m.isOpen && m.title == [] && m.message == [] && m.kind == Info
  {
    ModalState(false, "", "", Info)
  }

  /** The title used when the caller gives none (or an empty one). */
  function DefaultTitle(kind: ModalType): string {
    if kind == Error then "Atenção" else "Aviso"
  }

  /** `showModal(message, title?, type = 'info')`: the new state does not depend
      on the old one. `title || default` falls back for an absent or empty title. */
  function ShowModal(message: string, title: Option<string>, kind: Option<ModalType>): (m: ModalState)
    ensures m.isOpen && m.message == message
    ensures m.kind == (if kind.Some? then kind.value else Info)
    ensures title.Some? && title.value != [] ==> m.title == title.value
    ensures (title.None? || title.value == []) ==>
              m.title == (if m.kind == Error then "Atenção" else "Aviso")
    ensures m.title != []
  {
    var k := kind.GetOr(Info);
    ModalState(true, if title.Some? && title.value != "" then title.value else DefaultTitle(k), message, k)
  }

  /** `closeModal()`: hides the modal and keeps its content. */
  function CloseModal(m: ModalState): (r: ModalState)
    ensures !r.isOpen
    ensures r.title == m.title && r.message == m.message && r.kind == m.kind
  {
    m.(isOpen := false)
  }

  /** What a component can do to the modal. */
  datatype Event = Show(message: string, title: Option<string>, kind: Option<ModalType>) | Close

  function Apply(m: ModalState, e: Event): ModalState {
    match e
    case Show(message, title, kind) => ShowModal(message, title, kind)
    case Close => CloseModal(m)
  }

  /** The state after the events `es`, applied in order from `m`. */
  function Run(m: ModalState, es: seq<Event>): ModalState {
    if es == [] then m else Apply(Run(m, es[..|es| - 1]), es[|es| - 1])
  }

  /** No queue: whatever came before, once the last `Show` is at position `i`
      the content on screen is that of event `i`, open exactly when no `Close`
      followed it. */
  lemma {:induction false} LastShowWins(m: ModalState, es: seq<Event>, i: nat)
    requires i < |es| && es[i].Show?
    requires forall j :: i < j < |es| ==> es[j].Close?
    ensures var s := ShowModal(es[i].message, es[i].title, es[i].kind);
            Run(m, es) == s.(isOpen := i == |es| - 1)
  {
    if i < |es| - 1 {
      LastShowWins(m, es[..|es| - 1], i);
    } else {
      assert Run(m, es) == ShowModal(es[i].message, es[i].title, es[i].kind);
    }
  }

  /** With no `Show` at all, closing only hides what was there. */
  lemma {:induction false} ClosesOnlyHide(m: ModalState, es: seq<Event>)
    requires forall j :: 0 <= j < |es| ==> es[j].Close?
    ensures Run(m, es) == (if es == [] then m else CloseModal(m))
  {
    if es != [] {
      ClosesOnlyHide(m, es[..|es| - 1]);
    }
  }
}
