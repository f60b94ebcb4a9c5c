/** The reports that the program itself puts together always come back as they were printed. */
module XmlOwnReport {
  import opened XmlParser
  import opened XmlRoundTrip
  import opened XmlReport

  const RESULT_SECTIONS: set<string> := {"summary", "issues", "analysis", "inventory", "fonts", "images", "colorspaces"}

  const OTHER_SECTIONS: set<string> := {
    "spots", "icc", "annotations", "layers", "invoice", "invoice_lines", "invoice_taxes", "invoice_totals"}

  const TABLE_COLUMNS: set<string> := {
    "name", "type", "embedded", "pages", "size", "bpc", "colorspace", "ppi", "filter", "components", "version"}

  const OTHER_COLUMNS: set<string> := {
    "outputintent", "count", "id", "detail", "qty", "price", "amount", "category", "rate", "basis", "tax",
    "severity", "code", "fixed"}

  const LANGUAGES: set<string> := {"en", "de", "fr", "es", "nl", "it"}

  predicate SectionId(id: string) {
    id in RESULT_SECTIONS || id in OTHER_SECTIONS
  }

  predicate ColumnKey(key: string) {
    key in TABLE_COLUMNS || key in OTHER_COLUMNS
  }

  /** A time in ISO 8601: digits, the letters T and Z, and marks between and before numbers. */
  predicate TimeText(t: string) {
    forall i | 0 <= i < |t| :: '0' <= t[i] <= '9' || t[i] in {'T', 'Z', '-', '+', ':', '.'}
  }

  /** A report with the identifiers that the program uses. Titles, labels, keys of items, values,
      translations and the name of the engine are arbitrary. */
  predicate Own(s: Setting, secs: seq<Section>) {
    && s.lang in LANGUAGES && TimeText(s.created)
    && forall k | 0 <= k < |secs| ::
         SectionId(secs[k].id) && forall c | 0 <= c < |secs[k].cols| :: ColumnKey(secs[k].cols[c])
  }

  /** Neither a quote nor an ampersand. */
  predicate Harmless(v: string) {
    forall i | 0 <= i < |v| :: v[i] != '"' && v[i] != '&'
  }

  lemma ResultSectionsHarmless(v: string)
    ensures v in RESULT_SECTIONS ==> Harmless(v)
  {
  }

  lemma OtherSectionsHarmless(v: string)
    ensures v in OTHER_SECTIONS ==> Harmless(v)
  {
  }

  lemma TableColumnsHarmless(v: string)
    ensures v in TABLE_COLUMNS ==> Harmless(v)
  {
  }

  lemma OtherColumnsHarmless(v: string)
    ensures v in OTHER_COLUMNS ==> Harmless(v)
  {
  }

  lemma LanguagesHarmless(v: string)
    ensures v in LANGUAGES ==> Harmless(v)
  {
  }

  lemma IdsHarmless(v: string)
    ensures SectionId(v) || ColumnKey(v) ==> Harmless(v)
  {
    hide RESULT_SECTIONS, OTHER_SECTIONS, TABLE_COLUMNS, OTHER_COLUMNS, Harmless;
    ResultSectionsHarmless(v);
    OtherSectionsHarmless(v);
    TableColumnsHarmless(v);
    OtherColumnsHarmless(v);
  }

  lemma HarmlessReads(v: string)
    requires Harmless(v)
    ensures Plain(v) && NoEntity(v)
  {
    hide Find, EntityCode;
  }

  /** Every report with the program's own identifiers is accepted by the parser and comes back section
      by section, attribute by attribute and text by text. */
  lemma OwnReportRoundTrip(s: Setting, secs: seq<Section>)
    requires Own(s, secs)
    ensures var r := Parse(Rendered(s, secs), 0, EMPTY_NODE, 0);
            r.ok && ReadReport(r.node) == Views(s, secs)
  {
    hide SectionId, ColumnKey, LANGUAGES, Harmless, Plain, NoEntity, Parse, Rendered, ReadReport, Views;
    LanguagesHarmless(s.lang);
    HarmlessReads(s.lang);
    TimeHarmless(s.created);
    HarmlessReads(s.created);
    forall v | SectionId(v) || ColumnKey(v)
      ensures Plain(v) && NoEntity(v)
    {
      IdsHarmless(v);
      HarmlessReads(v);
    }
    ReportRoundTripIff(s, secs);
  }

  lemma TimeHarmless(t: string)
    requires TimeText(t)
    ensures Harmless(t)
  {
  }
}
