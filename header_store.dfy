/**
 * The header text store: a greeting that rotates through six languages every
 * ten seconds, which `setText` can override for three seconds. The clock is a
 * parameter of every step, and the two timers (the one-second rotation check
 * and the three-second revert) are explicit events: `Tick` and `Fire`.
 */
module HeaderStore {
  import opened Wrappers

  const DEFAULT_TEXTS: seq<string> := ["안녕하세요", "Hello", "こんにちは", "Hola", "Bonjour", "Hallo"]
  const INTERVAL: nat := 10000
  /** How long a text set by `setText` stays before the greeting returns. */
  const REVERT_DELAY: nat := 3000

  /** `Math.floor(Date.now() / INTERVAL) % DEFAULT_TEXTS.length`. */
  function RotationIndex(now: nat): (i: nat)
    ensures i < |DEFAULT_TEXTS|
  {
    (now / INTERVAL) % |DEFAULT_TEXTS|
  }

  /** The index moves on by one (and wraps) each time the clock crosses a ten-second boundary. */
  lemma RotationAdvances(now: nat)
    ensures RotationIndex(now + INTERVAL) == (RotationIndex(now) + 1) % |DEFAULT_TEXTS|
  {
    assert (now + INTERVAL) / INTERVAL == now / INTERVAL + 1;
  }

  /** The store's state, with the revert timer as the time it is due, if pending. */
  datatype Header = Header(text: Option<string>, currentDefaultIndex: nat, displayText: string, key: nat,
                           revertDue: Option<nat>)

  /**
   * The shown text is the set text while there is one, otherwise the greeting
   * of the current index; a revert is pending exactly while a text is set.
   */
  ghost predicate Coherent(h: Header)
  {
    && h.currentDefaultIndex < |DEFAULT_TEXTS|
    && (h.text.Some? ==> h.text.value != "" && h.displayText == h.text.value)
    && (h.text.None? ==> h.displayText == DEFAULT_TEXTS[h.currentDefaultIndex])
    && (h.text.Some? <==> h.revertDue.Some?)
  }

  /**
   * The initial state. The index and the shown greeting are computed from two
   * separate readings of the clock.
   */
  function Initial(nowForIndex: nat, nowForText: nat): (h: Header)
    ensures h.text.None? && h.key == 0 && h.revertDue.None?
    ensures h.currentDefaultIndex == RotationIndex(nowForIndex)
    ensures h.displayText == DEFAULT_TEXTS[RotationIndex(nowForText)]
  {
    Header(None, RotationIndex(nowForIndex), DEFAULT_TEXTS[RotationIndex(nowForText)], 0, None)
  }

  /** Two readings within the same ten-second window give a coherent initial state. */
  lemma InitialCoherent(nowForIndex: nat, nowForText: nat)
    requires nowForIndex / INTERVAL == nowForText / INTERVAL
    ensures Coherent(Initial(nowForIndex, nowForText))
  {
  }

  /**
   * Readings on either side of a ten-second boundary leave the shown greeting
   * one step ahead of the index until the next rotation check.
   */
  lemma InitialAcrossBoundary()
    ensures !Coherent(Initial(INTERVAL - 1, INTERVAL))
    ensures Tick(Initial(INTERVAL - 1, INTERVAL), INTERVAL + 1000).displayText == Initial(INTERVAL - 1, INTERVAL).displayText
    ensures Coherent(Tick(Initial(INTERVAL - 1, INTERVAL), INTERVAL + 1000))
  {
    assert RotationIndex(INTERVAL - 1) == 0;
    assert RotationIndex(INTERVAL) == 1;
    assert RotationIndex(INTERVAL + 1000) == 1;
  }

  /**
   * `setText`: any pending revert is cancelled; a non-empty text is shown and
   * a revert is scheduled three seconds later; null or "" brings back the
   * greeting of the current index. Either way `key` goes up by one.
   */
  function SetText(h: Header, t: Option<string>, now: nat): (r: Header)
    requires h.currentDefaultIndex < |DEFAULT_TEXTS|
    ensures r.key == h.key + 1 && r.currentDefaultIndex == h.currentDefaultIndex
    ensures Truthy(t) ==> r.text == t && r.displayText == t.value && r.revertDue == Some(now + REVERT_DELAY)
    ensures !Truthy(t) ==> r.text.None? && r.displayText == DEFAULT_TEXTS[h.currentDefaultIndex] && r.revertDue.None?
  {
    if Truthy(t) then Header(t, h.currentDefaultIndex, t.value, h.key + 1, Some(now + REVERT_DELAY))
    else Header(None, h.currentDefaultIndex, DEFAULT_TEXTS[h.currentDefaultIndex], h.key + 1, None)
  }

  /**
   * The revert timer at `now`: once due, it clears the text and brings back
   * the greeting of the index current at that moment; before that, or with no
   * revert pending, nothing happens.
   */
  function Fire(h: Header, now: nat): (r: Header)
    requires h.currentDefaultIndex < |DEFAULT_TEXTS|
    ensures h.revertDue.Some? && now >= h.revertDue.value ==>
      r == Header(None, h.currentDefaultIndex, DEFAULT_TEXTS[h.currentDefaultIndex], h.key + 1, None)
    ensures !(h.revertDue.Some? && now >= h.revertDue.value) ==> r == h
  {
    if h.revertDue.Some? && now >= h.revertDue.value
    then Header(None, h.currentDefaultIndex, DEFAULT_TEXTS[h.currentDefaultIndex], h.key + 1, None)
    else h
  }

  /**
   * The one-second rotation check at `now`: only with no text set and a new
   * index does it move to that index's greeting, adding one to `key`.
   */
  function Tick(h: Header, now: nat): (r: Header)
    ensures (RotationIndex(now) != h.currentDefaultIndex && !Truthy(h.text)) ==>
      r == h.(currentDefaultIndex := RotationIndex(now), displayText := DEFAULT_TEXTS[RotationIndex(now)], key := h.key + 1)
    ensures !(RotationIndex(now) != h.currentDefaultIndex && !Truthy(h.text)) ==> r == h
  {
    var newIndex := RotationIndex(now);
    if newIndex != h.currentDefaultIndex && !Truthy(h.text)
    then h.(currentDefaultIndex := newIndex, displayText := DEFAULT_TEXTS[newIndex], key := h.key + 1)
    else h
  }

  /** Every step keeps the state coherent. */
  lemma StepsKeepCoherent(h: Header, t: Option<string>, now: nat)
    requires Coherent(h)
    ensures Coherent(SetText(h, t, now))
    ensures Coherent(Fire(h, now))
    ensures Coherent(Tick(h, now))
  {
  }

  /** `key` never decreases; a step that changes the state adds exactly one. */
  lemma KeyCountsTransitions(h: Header, t: Option<string>, now: nat)
    requires h.currentDefaultIndex < |DEFAULT_TEXTS|
    ensures SetText(h, t, now).key == h.key + 1
    ensures Fire(h, now) == h || Fire(h, now).key == h.key + 1
    ensures Tick(h, now) == h || Tick(h, now).key == h.key + 1
  {
  }

  /**
   * A text set at `now` and left alone is still shown just before the three
   * seconds pass, and is gone just after, whatever the rotation did meanwhile.
   */
  lemma TextShownForThreeSeconds(h: Header, t: string, now: nat, tick: nat)
    requires Coherent(h) && t != ""
    ensures var s := Tick(SetText(h, Some(t), now), tick);
      && Fire(s, now + REVERT_DELAY - 1).displayText == t
      && Fire(s, now + REVERT_DELAY).text.None?
      && Fire(s, now + REVERT_DELAY).displayText == DEFAULT_TEXTS[h.currentDefaultIndex]
  {
  }

  /** The store object; `textTimer` is the pending revert. */
  class Store {
    var text: Option<string>
    var currentDefaultIndex: nat
    var displayText: string
    var key: nat
    var revertDue: Option<nat>

    function State(): Header
      reads this
    {
      Header(text, currentDefaultIndex, displayText, key, revertDue)
    }

    ghost predicate Valid()
      reads this
    {
      currentDefaultIndex < |DEFAULT_TEXTS|
    }

    /** The store's creation, which reads the clock twice. */
    constructor (nowForIndex: nat, nowForText: nat)
      ensures Valid()
      ensures State() == Initial(nowForIndex, nowForText)
    {
      text := None;
      currentDefaultIndex := RotationIndex(nowForIndex);
      displayText := DEFAULT_TEXTS[RotationIndex(nowForText)];
      key := 0;
      revertDue := None;
    }

    method SetTextAt(t: Option<string>, now: nat)
      modifies this
      requires Valid()
      ensures Valid()
      ensures State() == SetText(old(State()), t, now)
    {
      revertDue := None;
      if Truthy(t) {
        text, displayText, key := t, t.value, key + 1;
        revertDue := Some(now + REVERT_DELAY);
      } else {
        text, displayText, key := None, DEFAULT_TEXTS[currentDefaultIndex], key + 1;
      }
    }

    method FireAt(now: nat)
      modifies this
      requires Valid()
      ensures Valid()
      ensures State() == Fire(old(State()), now)
    {
      if revertDue.Some? && now >= revertDue.value {
        text, displayText, key := None, DEFAULT_TEXTS[currentDefaultIndex], key + 1;
        revertDue := None;
      }
    }

    method TickAt(now: nat)
      modifies this
      requires Valid()
      ensures Valid()
      ensures State() == Tick(old(State()), now)
    {
      var newIndex := RotationIndex(now);
      if newIndex != currentDefaultIndex && !Truthy(text) {
        currentDefaultIndex, displayText, key := newIndex, DEFAULT_TEXTS[newIndex], key + 1;
      }
    }
  }
}
