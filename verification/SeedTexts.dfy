/** Texts in the site's three languages, as the fixtures hold them. */
module SeedTexts {
  import opened GoStrings

  datatype Localized = Localized(th: string, en: string, de: string)

  /** Every fixture text must be there in all three languages. */
  predicate Complete(l: Localized) {
    TrimSpace(l.th) != "" && TrimSpace(l.en) != "" && TrimSpace(l.de) != ""
  }
}
