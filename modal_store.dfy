/**
 * The modal store: the open and minimised flags of the three modals, and the
 * four actions that rewrite them. Each action replaces the record; the pure
 * functions below say what the new record is.
 */
module ModalStore {

  datatype ModalType = MessageModal | TrackerModal | ProfileModal

  datatype ModalState = ModalState(isOpen: bool, isMinimized: bool)

  /** The `modals` record, one state per modal type. */
  datatype Modals = Modals(message: ModalState, tracker: ModalState, profile: ModalState)

  const Closed: ModalState := ModalState(false, false)

  function Get(m: Modals, t: ModalType): ModalState
  {
    match t
    case MessageModal => m.message
    case TrackerModal => m.tracker
    case ProfileModal => m.profile
  }

  /** `{ ...state.modals, [t]: s }`: the record with the entry of `t` replaced. */
  function With(m: Modals, t: ModalType, s: ModalState): (r: Modals)
    ensures Get(r, t) == s
    ensures forall u :: u != t ==> Get(r, u) == Get(m, u)
  {
    match t
    case MessageModal => m.(message := s)
    case TrackerModal => m.(tracker := s)
    case ProfileModal => m.(profile := s)
  }

  /** `openModal`: `t` is open and keeps its minimised flag; the others are unchanged. */
  function OpenModal(m: Modals, t: ModalType): (r: Modals)
    ensures Get(r, t).isOpen && Get(r, t).isMinimized == Get(m, t).isMinimized
    ensures forall u :: u != t ==> Get(r, u) == Get(m, u)
  {
    With(m, t, Get(m, t).(isOpen := true))
  }

  /** `closeModal`: `t` is closed and not minimised; the others are unchanged. */
  function CloseModal(m: Modals, t: ModalType): (r: Modals)
    ensures Get(r, t) == Closed
    ensures forall u :: u != t ==> Get(r, u) == Get(m, u)
  {
    With(m, t, ModalState(false, false))
  }

  /** `toggleMinimize`: only the minimised flag of `t` flips. */
  function ToggleMinimize(m: Modals, t: ModalType): (r: Modals)
    ensures Get(r, t).isOpen == Get(m, t).isOpen && Get(r, t).isMinimized == !Get(m, t).isMinimized
    ensures forall u :: u != t ==> Get(r, u) == Get(m, u)
  {
    With(m, t, Get(m, t).(isMinimized := !Get(m, t).isMinimized))
  }

  /** `setMinimized`: the minimised flag of `t` is `b`, its open flag is kept. */
  function SetMinimized(m: Modals, t: ModalType, b: bool): (r: Modals)
    ensures Get(r, t) == ModalState(Get(m, t).isOpen, b)
    ensures forall u :: u != t ==> Get(r, u) == Get(m, u)
  {
    With(m, t, Get(m, t).(isMinimized := b))
  }

  /** Two records with the same three entries are the same record. */
  lemma Extensional(a: Modals, b: Modals)
    requires forall t :: Get(a, t) == Get(b, t)
    ensures a == b
  {
    assert Get(a, MessageModal) == Get(b, MessageModal);
    assert Get(a, TrackerModal) == Get(b, TrackerModal);
    assert Get(a, ProfileModal) == Get(b, ProfileModal);
  }

  /** Opening an open modal changes nothing. */
  lemma OpenIdempotent(m: Modals, t: ModalType)
    ensures OpenModal(OpenModal(m, t), t) == OpenModal(m, t)
  {
    Extensional(OpenModal(OpenModal(m, t), t), OpenModal(m, t));
  }

  /** Toggling twice restores the record. */
  lemma ToggleTwice(m: Modals, t: ModalType)
    ensures ToggleMinimize(ToggleMinimize(m, t), t) == m
  {
    Extensional(ToggleMinimize(ToggleMinimize(m, t), t), m);
  }

  /** Setting the same minimised flag twice is setting it once. */
  lemma SetMinimizedIdempotent(m: Modals, t: ModalType, b: bool)
    ensures SetMinimized(SetMinimized(m, t, b), t, b) == SetMinimized(m, t, b)
  {
    Extensional(SetMinimized(SetMinimized(m, t, b), t, b), SetMinimized(m, t, b));
  }

  /** Closing and reopening a modal shows it un-minimised. */
  lemma ReopenAfterClose(m: Modals, t: ModalType)
    ensures Get(OpenModal(CloseModal(m, t), t), t) == ModalState(true, false)
  {
  }

  /** The zustand store holding the record. */
  class Store {
    var modals: Modals

    /** Initially all three modals are closed and not minimised. */
    constructor ()
      ensures forall t :: Get(modals, t) == Closed
    {
      modals := Modals(Closed, Closed, Closed);
    }

    method Open(t: ModalType)
      modifies this
      ensures modals == OpenModal(old(modals), t)
    {
      modals := With(modals, t, Get(modals, t).(isOpen := true));
    }

    method Close(t: ModalType)
      modifies this
      ensures modals == CloseModal(old(modals), t)
    {
      modals := With(modals, t, ModalState(false, false));
    }

    method Toggle(t: ModalType)
      modifies this
      ensures modals == ToggleMinimize(old(modals), t)
    {
      modals := With(modals, t, Get(modals, t).(isMinimized := !Get(modals, t).isMinimized));
    }

    method SetMinimizedFlag(t: ModalType, b: bool)
      modifies this
      ensures modals == SetMinimized(old(modals), t, b)
    {
      modals := With(modals, t, Get(modals, t).(isMinimized := b));
    }
  }
}
