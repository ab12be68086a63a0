/** The colour of the patient's face in the avatar, chosen from keywords of
    the face description. */
module PatientView {
  import opened Constants

  const DEFAULT_FLESH: string := "bg-[#eec0b0]"
  const FLUSHED: string := "bg-[#ff9999]"
  const PALE: string := "bg-[#f0f0e0]"
  const SALLOW: string := "bg-[#eadcae]"
  const DARK: string := "bg-[#a09090]"
  const PURPLE: string := "bg-[#c0a0c0]"

  /** The six colour classes the avatar can take. */
  const PALETTE: set<string> := {DEFAULT_FLESH, FLUSHED, PALE, SALLOW, DARK, PURPLE}

  predicate HasRed(desc: string) { '红' in desc || '赤' in desc }
  predicate HasPale(desc: string) { '白' in desc || '萎' in desc }
  predicate HasYellow(desc: string) { '黄' in desc }
  predicate HasDark(desc: string) { '黑' in desc || '暗' in desc }
  predicate HasPurple(desc: string) { '紫' in desc }

  /** The face colour as a precedence: the first keyword group present, from
      purple down to red, decides; with none present the default flesh tone. */
  function FaceTone(desc: string): (color: string)
    ensures color in PALETTE
    ensures HasPurple(desc) ==> color == PURPLE
    ensures !HasPurple(desc) && HasDark(desc) ==> color == DARK
    ensures !HasPurple(desc) && !HasDark(desc) && HasYellow(desc) ==> color == SALLOW
    ensures color == PALE <==> HasPale(desc) && !HasYellow(desc) && !HasDark(desc) && !HasPurple(desc)
    ensures color == FLUSHED <==>
      HasRed(desc) && !HasPale(desc) && !HasYellow(desc) && !HasDark(desc) && !HasPurple(desc)
    ensures color == DEFAULT_FLESH <==>
      !HasRed(desc) && !HasPale(desc) && !HasYellow(desc) && !HasDark(desc) && !HasPurple(desc)
  {
    if HasPurple(desc) then PURPLE
    else if HasDark(desc) then DARK
    else if HasYellow(desc) then SALLOW
    else if HasPale(desc) then PALE
    else if HasRed(desc) then FLUSHED
    else DEFAULT_FLESH
  }

  /** The avatar's colour as the component computes it: start from the default
      and let each keyword test that succeeds overwrite the choice, so the
      last successful test wins. */
  method AvatarFaceColor(faceDesc: string) returns (faceColor: string)
    ensures faceColor == FaceTone(faceDesc)
  {
    faceColor := DEFAULT_FLESH;
    if '红' in faceDesc || '赤' in faceDesc { faceColor := FLUSHED; }
    if '白' in faceDesc || '萎' in faceDesc { faceColor := PALE; }
    if '黄' in faceDesc { faceColor := SALLOW; }
    if '黑' in faceDesc || '暗' in faceDesc { faceColor := DARK; }
    if '紫' in faceDesc { faceColor := PURPLE; }
  }

  /** The fallback patient's face (面色淡白无华) is drawn pale. */
  lemma FallbackFaceIsPale()
    ensures FaceTone(MOCK_FALLBACK_CASE.appearance.face) == PALE
  {
  }
}
