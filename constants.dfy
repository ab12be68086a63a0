/** Configuration of the game and the static case used when no case can be generated. */
module Constants {
  import opened Types

  /** Lives a new game starts with. */
  const INITIAL_LIVES: int := 3

  /** Base points for a correct answer. */
  const POINTS_PER_QUESTION: int := 100

  /** The hard-coded case returned when the case generator is unavailable or fails. */
  const MOCK_FALLBACK_CASE: TcmCase := TcmCase(
    "张三",
    Appearance("面色淡白无华", "舌淡苔白", "脉细弱"),
    "大夫，我最近总是感觉头晕眼花，心慌心悸，干一点活就累得不行，脸色也难看。",
    "气血亏虚证",
    ["肝阳上亢证", "痰湿中阻证", "肾阳虚衰证"],
    "患者面色淡白、舌淡脉细弱均为血虚之象；气短乏力、动则加剧为气虚之象。气血双亏，故见头晕眼花、心悸等。")

  lemma ConfiguredValues()
    ensures INITIAL_LIVES == 3 && POINTS_PER_QUESTION == 100
    ensures INITIAL_LIVES > 0
  {
  }

  /** The fallback case satisfies the invariant every case is expected to meet. */
  lemma FallbackWellFormed()
    ensures WellFormedCase(MOCK_FALLBACK_CASE)
    ensures |MOCK_FALLBACK_CASE.wrongOptions| == 3
    ensures MOCK_FALLBACK_CASE.correctDiagnosis !in MOCK_FALLBACK_CASE.wrongOptions
  {
  }
}
