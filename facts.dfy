/** Metadata facts (name and rendered value), as listings and MFMT replies print them. */
module Facts {

  /** A point in time, always in UTC; MFMT parses its timestamp with the fixed zone "UTC". */
  datatype Instant = Instant(utcTicks: int)

  /** A fact: its name and its canonical rendered value. */
  datatype Fact = Fact(name: string, value: string)

  const ModifyFactName: string := "Modify"

  /**
   * The modification-time fact. Its value is produced by the shared time
   * rendering, passed in as `render` because that code is not part of this model.
   */
  function ModifyFact(time: Instant, render: Instant -> string): Fact
  {
    Fact(ModifyFactName, render(time))
  }
}
