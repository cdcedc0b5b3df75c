/** The static club registry and the polling window, as configured at process start. */
module Config {
  import opened PadelTypes

  /** `CLUBS`: lookup key to club, in declaration order. */
  type Registry = seq<(string, ClubConfig)>

  /** Every key is declared once and each club's `id` is its own key. */
  predicate WellFormedRegistry(reg: Registry)
  {
    DistinctKeys(reg) && forall i :: 0 <= i < |reg| ==> reg[i].1.id == reg[i].0
  }

  const Clubs: Registry := [
    ("mouratoglou", ClubConfig(
      "mouratoglou", "Mouratoglou Country Club",
      "652b9a65-0756-4f08-9b30-e20130aeea42", "700a126b-59e1-4f94-8931-0c87483c6f10",
      "https://api-blockout.doinsport.club/clubs/playgrounds/plannings/",
      "https://mouratogloucc.doinsport.club/select-booking")),
    ("allinpadel", ClubConfig(
      "allinpadel", "All In Padel Mougins",
      "76eab5bf-ac6d-4fd3-84fc-0ec862242e6e", "ce8c306e-224a-4f24-aa9d-6500580924dc",
      "https://allin-api.doinsport.club/clubs/playgrounds/plannings/",
      "https://allinpadel.doinsport.club/select-booking")),
    ("stadiumantibes", ClubConfig(
      "stadiumantibes", "Stadium-Antibes",
      "c8e997d2-303d-4fb3-988a-bbb0640643cd", "ce8c306e-224a-4f24-aa9d-6500580924dc",
      "https://api-v3.doinsport.club/clubs/playgrounds/plannings/",
      "https://stadium-antibes.doinsport.club/select-booking")),
    ("padelriviera", ClubConfig(
      "padelriviera", "Padel Riviera",
      "5b3a0eb9-3565-4fc5-abd3-928f7f46dc14", "ce8c306e-224a-4f24-aa9d-6500580924dc",
      "https://api-v3.doinsport.club/clubs/playgrounds/plannings/",
      "https://padelriviera.doinsport.club/select-booking"))
  ]

  /** `PADEL_CONFIG.DAYS_TO_CHECK`: the length of the multi-day window. */
  const DaysToCheck: nat := 8

  /** The club used when a request names none. */
  const DefaultClubKey: string := "mouratoglou"

  /** The registry's keys, in declaration order. */
  lemma ClubKeys()
    ensures Keys(Clubs) == ["mouratoglou", "allinpadel", "stadiumantibes", "padelriviera"]
  {
  }

  /** The configured registry is well formed and holds the default club. */
  lemma ClubsWellFormed()
    ensures WellFormedRegistry(Clubs)
    ensures DefaultClubKey in Keys(Clubs)
  {
    var lengths := [11, 10, 14, 12];
    forall i | 0 <= i < |Clubs| ensures |Clubs[i].0| == lengths[i] && Clubs[i].1.id == Clubs[i].0 {
    }
    assert Keys(Clubs)[0] == DefaultClubKey;
  }
}
