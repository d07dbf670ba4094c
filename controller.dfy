/** The input decision rule: one polled event record becomes the
    application's `quit` and `save` requests. */
module Controller {

  /** Key codes of the escape and `s` keys. */
  const KeyEscape: int := 27
  const KeyS: int := 115

  /** What one poll of the window reports: whether the window was closed,
      and the keys pressed and released since the last poll. */
  datatype EventRecord = EventRecord(quitEvent: bool, keyDown: seq<int>, keyUp: seq<int>)

  datatype InputState = InputState(quit: bool, save: bool)

  /** `handle_input`: both flags start false; closing the window or pressing
      escape sets `quit`, pressing `s` sets `save`. */
  function HandleInput(ev: EventRecord): (st: InputState)
    ensures st.quit <==> ev.quitEvent || KeyEscape in ev.keyDown
    ensures st.save <==> KeyS in ev.keyDown
  {
    var st := InputState(quit := false, save := false);
    var st := if ev.quitEvent || KeyEscape in ev.keyDown then st.(quit := true) else st;
    if KeyS in ev.keyDown then st.(save := true) else st
  }

  /** An empty poll requests nothing. */
  lemma NothingByDefault()
    ensures HandleInput(EventRecord(false, [], [])) == InputState(false, false)
  {
  }

  /** The two flags are decided independently: a close event and `s` in the
      same poll request both. */
  lemma QuitAndSaveTogether(keyUp: seq<int>)
    ensures HandleInput(EventRecord(true, [KeyS], keyUp)) == InputState(true, true)
    ensures HandleInput(EventRecord(false, [KeyEscape, KeyS], keyUp)) == InputState(true, true)
  {
  }

  /** Released keys are never consulted. */
  lemma KeyUpIgnored(ev: EventRecord, keyUp: seq<int>)
    ensures HandleInput(ev.(keyUp := keyUp)) == HandleInput(ev)
  {
  }

  /** Pressing any key other than escape and `s` changes neither flag. */
  lemma OtherKeysIgnored(ev: EventRecord, key: int, at: nat)
    requires key != KeyEscape && key != KeyS && at <= |ev.keyDown|
    ensures HandleInput(ev.(keyDown := ev.keyDown[..at] + [key] + ev.keyDown[at..])) == HandleInput(ev)
  {
    var ks := ev.keyDown[..at] + [key] + ev.keyDown[at..];
    assert ev.keyDown == ev.keyDown[..at] + ev.keyDown[at..];
    assert forall k :: k in ks <==> k == key || k in ev.keyDown;
  }
}
