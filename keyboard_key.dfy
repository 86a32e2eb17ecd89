/**
 * The four directional keys the automation presses. Each constant carries a
 * one-letter label and the AWT key code that is dispatched to the client
 * (37..40 are the AWT codes of the arrow keys).
 */
module KeyboardKeys {

  datatype KeyboardKey = KeyW | KeyA | KeyS | KeyD {

    /** The label given at construction. */
    function Key(): (letter: string)
      ensures |letter| == 1
    {
      match this
      case KeyW => "W"
      case KeyA => "A"
      case KeyS => "S"
      case KeyD => "D"
    }

    /** `getKeyCode`: the code given at construction. */
    function KeyCode(): (code: int)
      ensures 37 <= code <= 40
    {
      match this
      case KeyW => 38
      case KeyA => 37
      case KeyS => 40
      case KeyD => 39
    }

    /** `toString`: "KEY_" followed by the label, the same text as the constant's name. */
    function ToString(): (s: string)
      ensures |s| == 5 && s[..4] == "KEY_" && s[4..] == Key()
    {
      "KEY_" + Key()
    }
  }

  /** No two keys share a code, so a dispatched key event identifies its key. */
  lemma KeyCodesDistinct(a: KeyboardKey, b: KeyboardKey)
    ensures a.KeyCode() == b.KeyCode() <==> a == b
  {
  }

  /** Every arrow-key code 37..40 belongs to exactly one constant. */
  lemma KeyCodesCoverArrows(code: int)
    requires 37 <= code <= 40
    ensures exists k: KeyboardKey :: k.KeyCode() == code
  {
    var k := if code == 37 then KeyA else if code == 38 then KeyW else if code == 39 then KeyD else KeyS;
    assert k.KeyCode() == code;
  }

  /** `toString` tells the keys apart, and each constant prints as its own name. */
  lemma ToStringDistinct(a: KeyboardKey, b: KeyboardKey)
    ensures a.ToString() == b.ToString() <==> a == b
    ensures KeyW.ToString() == "KEY_W" && KeyA.ToString() == "KEY_A"
    ensures KeyS.ToString() == "KEY_S" && KeyD.ToString() == "KEY_D"
  {
    if a.ToString() == b.ToString() {
      assert a.ToString()[4] == a.Key()[0];
      assert b.ToString()[4] == b.Key()[0];
    }
  }
}
