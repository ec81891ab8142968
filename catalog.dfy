/** The fixed selection catalog: eight sectors of five characters each. */
module Catalog {

  const Sectors: seq<string> := [
    "ABCDE",
    "FGHIJ",
    "KLMNO",
    "PQRST",
    "UVWXY",
    "Z0123",
    "45678",
    "9.,!?"
  ]

  /** `sectors.length` */
  const ROW_COUNT: int := 8

  /** The length every sector has. */
  const ROW_LENGTH: int := 5

  /** The catalog has ROW_COUNT rows, all of length ROW_LENGTH. */
  lemma CatalogShape()
    ensures |Sectors| == ROW_COUNT
    ensures forall r :: r in Sectors ==> |r| == ROW_LENGTH
  {
  }
}
