/** The license-key card: a text input (masked or shown), an activate button
    and a three-valued status. The only validity test is the key's length
    as JavaScript measures it, in UTF-16 code units. */
module License {

  datatype Status = Idle | Valid | Invalid

  datatype LicenseState = LicenseState(licenseKey: string, showKey: bool, status: Status)

  /** The shortest key the activate button accepts. */
  const MinKeyLength: nat := 16

  /** The card as it first appears: empty key, masked, no verdict. */
  const Initial: LicenseState := LicenseState("", false, Idle)

  /** JavaScript's `String.length`: characters outside the Basic Multilingual
      Plane are stored as a surrogate pair and count twice. */
  function Utf16Length(s: string): (n: nat)
    ensures |s| <= n <= 2 * |s|
    ensures (forall i :: 0 <= i < |s| ==> (s[i] as int) < 0x1_0000) ==> n == |s|
    ensures (forall i :: 0 <= i < |s| ==> (s[i] as int) >= 0x1_0000) ==> n == 2 * |s|
    ensures |s| == 1 ==> n == (if (s[0] as int) < 0x1_0000 then 1 else 2)
  {
    if s == [] then 0
    else (if (s[0] as int) < 0x1_0000 then 1 else 2) + Utf16Length(s[1..])
  }

  /** The code-unit length of a concatenation is the sum of the lengths, so
      with the one-character case it fixes the length of every string. */
  lemma {:induction false} Utf16LengthAppend(a: string, b: string)
    ensures Utf16Length(a + b) == Utf16Length(a) + Utf16Length(b)
  {
    if a != [] {
      assert (a + b)[1..] == a[1..] + b;
      Utf16LengthAppend(a[1..], b);
    } else {
      assert a + b == b;
    }
  }

  /** A BMP character followed by an astral one has JavaScript length three. */
  lemma Utf16LengthMixed()
    ensures Utf16Length("a\U{1F511}") == 3
  {
    Utf16LengthAppend("a", "\U{1F511}");
    assert "a\U{1F511}" == "a" + "\U{1F511}";
  }

  /** The activate button: the verdict depends only on the key's length; the
      key and its visibility are left as they are. */
  function Activate(st: LicenseState): (r: LicenseState)
    ensures r.status == Valid <==> Utf16Length(st.licenseKey) >= MinKeyLength
    ensures r.status == Invalid <==> Utf16Length(st.licenseKey) < MinKeyLength
    ensures r.licenseKey == st.licenseKey && r.showKey == st.showKey
  {
    var verdict := if Utf16Length(st.licenseKey) >= MinKeyLength then Valid else Invalid;
    st.(status := verdict)
  }

  /** Typing in the key input: the key is replaced and any earlier verdict
      is dropped. */
  function EditKey(st: LicenseState, text: string): (r: LicenseState)
    ensures r.licenseKey == text && r.status == Idle && r.showKey == st.showKey
  {
    LicenseState(text, st.showKey, Idle)
  }

  /** The eye button: shows a masked key or masks a shown one. */
  function ToggleShowKey(st: LicenseState): (r: LicenseState)
    ensures r.showKey != st.showKey
    ensures r.licenseKey == st.licenseKey && r.status == st.status
  {
    st.(showKey := !st.showKey)
  }

  /** Pressing the eye button twice restores the card. */
  lemma ToggleShowKeyTwice(st: LicenseState)
    ensures ToggleShowKey(ToggleShowKey(st)) == st
  {
  }

  /** Activating twice gives the same verdict as activating once. */
  lemma ActivateIdempotent(st: LicenseState)
    ensures Activate(Activate(st)) == Activate(st)
  {
  }

  /** An edit followed by activation judges the new key alone: whatever the
      card showed before has no influence. */
  lemma EditThenActivate(st: LicenseState, text: string)
    ensures Activate(EditKey(st, text)).status == Activate(LicenseState(text, false, Idle)).status
  {
  }

  /** A key of BMP characters only is accepted exactly when it has at least
      sixteen characters. */
  lemma ActivateBmpKey(st: LicenseState)
    requires forall i :: 0 <= i < |st.licenseKey| ==> (st.licenseKey[i] as int) < 0x1_0000
    ensures Activate(st).status == (if |st.licenseKey| >= 16 then Valid else Invalid)
  {
  }

  /** The boundary, on concrete keys: fifteen characters are rejected and
      sixteen accepted. */
  lemma ActivateBoundary()
    ensures Activate(EditKey(Initial, seq(15, _ => 'A'))).status == Invalid
    ensures Activate(EditKey(Initial, seq(16, _ => 'A'))).status == Valid
  {
    var short := seq(15, _ => 'A');
    var long := seq(16, _ => 'A');
    assert forall i :: 0 <= i < |short| ==> (short[i] as int) < 0x1_0000;
    assert forall i :: 0 <= i < |long| ==> (long[i] as int) < 0x1_0000;
  }

  /** A key of eight characters outside the Basic Multilingual Plane has
      JavaScript length sixteen and is accepted. */
  lemma ActivateAstralKey()
    ensures Activate(EditKey(Initial, "\U{1F511}\U{1F511}\U{1F511}\U{1F511}\U{1F511}\U{1F511}\U{1F511}\U{1F511}")).status == Valid
  {
    var keys := "\U{1F511}\U{1F511}\U{1F511}\U{1F511}\U{1F511}\U{1F511}\U{1F511}\U{1F511}";
    assert forall i :: 0 <= i < |keys| ==> (keys[i] as int) >= 0x1_0000;
  }

  /** The verdict on display agrees with the key in the input: a card shows
      "valid" only for a long enough key and "invalid" only for a short one. */
  predicate Consistent(st: LicenseState) {
    && (st.status == Valid ==> Utf16Length(st.licenseKey) >= MinKeyLength)
    && (st.status == Invalid ==> Utf16Length(st.licenseKey) < MinKeyLength)
  }

  datatype Event = Type(text: string) | PressActivate | PressEye

  /** One user interaction with the card. */
  function Step(st: LicenseState, e: Event): (r: LicenseState)
    ensures e.Type? ==> r.status == Idle
    ensures !e.Type? ==> r.licenseKey == st.licenseKey
  {
    match e
    case Type(text) => EditKey(st, text)
    case PressActivate => Activate(st)
    case PressEye => ToggleShowKey(st)
  }

  /** Every interaction keeps the displayed verdict consistent with the key,
      starting from the initial card. */
  lemma StepPreservesConsistent(st: LicenseState, e: Event)
    requires Consistent(st)
    ensures Consistent(Step(st, e))
    ensures Consistent(Initial)
  {
  }
}
