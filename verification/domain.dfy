/** The records the application passes around (types.ts): a generated
    reflection, a saved favourite and the signed-in user. */
module Domain {

  import opened Outcomes

  datatype FocusPoint = FocusPoint(title: string, description: string, scripture: string)

  datatype CrossReference = CrossReference(theme: string, reference: string)

  /** One generated reflection (`PrayerResponse`); `imageUrl` is filled in
      after the secondary image request succeeds. */
  datatype Reflection = Reflection(
    title: string,
    story: string,
    prayer: string,
    references: seq<string>,
    focusPoints: seq<FocusPoint>,
    crossReferences: seq<CrossReference>,
    imagePrompt: string,
    imageUrl: Option<string>)

  /** A favourite (`SavedPrayer`): the reflection plus an id and a
      creation timestamp in milliseconds. */
  datatype SavedEntry = SavedEntry(reflection: Reflection, id: string, timestamp: int) {
    function Title(): string {
      reflection.title
    }
  }

  /** The locally stored sign-in profile. */
  datatype User = User(name: string, email: string)
}
