/**
 * The shape of the data the analysis engine consumes: one row per draw date,
 * holding for each of the seven tracked lottery companies an optional first-prize
 * numeral (src/lib/constants.ts, src/types/results.ts).
 */
module Results {
  import opened Wrappers

  /** The seven operators, declared in the order of the COMPANIES constant. */
  datatype Company = Magnum | Toto | Damacai | Sandakan | Sabah | Sarawak | Singapore

  /** The company order every analyzer iterates in. */
  const Companies: seq<Company> := [Magnum, Toto, Damacai, Sandakan, Sabah, Sarawak, Singapore]

  /** A pivoted result row: its draw date and, per company, the value drawn (null when absent). */
  datatype Row = Row(drawDate: string, values: map<Company, Option<string>>)

  /** `row[company]`: a company without a key reads as undefined, like a null cell. */
  function ValueOf(row: Row, c: Company): Option<string>
  {
    if c in row.values then row.values[c] else None
  }

  /** A company took part in a row's draw when its cell is truthy: present and not the empty string. */
  predicate Participates(row: Row, c: Company): (b: bool)
    ensures b <==> c in row.values && row.values[c].Some? && |row.values[c].value| > 0
  {
    ValueOf(row, c).Some? && ValueOf(row, c).value != ""
  }

  lemma CompaniesListsEachCompanyOnce()
    ensures |Companies| == 7
    ensures forall c: Company :: c in Companies
    ensures forall i, j :: 0 <= i < j < |Companies| ==> Companies[i] != Companies[j]
  {
    forall c: Company ensures c in Companies {
      match c
      case Magnum => assert Companies[0] == c;
      case Toto => assert Companies[1] == c;
      case Damacai => assert Companies[2] == c;
      case Sandakan => assert Companies[3] == c;
      case Sabah => assert Companies[4] == c;
      case Sarawak => assert Companies[5] == c;
      case Singapore => assert Companies[6] == c;
    }
  }
}
