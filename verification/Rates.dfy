/** Rate resolution (backend/services/fx_rates.py): the latest quote at or before an instant,
    in the asked direction first, then the reciprocal of the other. */
module Rates {
  import opened Wrappers
  import opened Money

  datatype Rate = Rate(id: nat, base: Currency, quote: Currency, rate: real, source: string, effectiveAt: int)

  datatype Provenance = Identity | Direct(source: string) | Reciprocal(source: string)

  datatype ResolvedRate = ResolvedRate(rate: real, provenance: Provenance, rateId: Option<nat>, effectiveAt: int)

  datatype RateError = RateUnavailable

  predicate Quotes(r: Rate, base: Currency, quote: Currency, asOf: int) {
    r.base == base && r.quote == quote && r.effectiveAt <= asOf
  }

  /** The row `ORDER BY effective_at DESC LIMIT 1` returns; among equal instants, the first inserted. */
  function Latest(rows: seq<Rate>, base: Currency, quote: Currency, asOf: int): Option<Rate> {
    if rows == [] then None
    else
      var last := rows[|rows| - 1];
      var before := Latest(rows[..|rows| - 1], base, quote, asOf);
      if Quotes(last, base, quote, asOf) && (before.Some? ==> before.value.effectiveAt < last.effectiveAt)
      then Some(last)
      else before
  }

  function Resolve(rows: seq<Rate>, base: Currency, quote: Currency, asOf: int): Result<ResolvedRate, RateError> {
    if base == quote then
      Ok(ResolvedRate(1.0, Identity, None, asOf))
    else
      match Latest(rows, base, quote, asOf)
      case Some(direct) =>
        Ok(ResolvedRate(direct.rate, Direct(direct.source), Some(direct.id), direct.effectiveAt))
      case None =>
        match Latest(rows, quote, base, asOf)
        case Some(inverse) =>
          if inverse.rate != 0.0
          then Ok(ResolvedRate(1.0 / inverse.rate, Reciprocal(inverse.source), Some(inverse.id), inverse.effectiveAt))
          else Err(RateUnavailable)
        case None => Err(RateUnavailable)
  }

  // ----- Which row is chosen -----

  /** What the query may return: some quote for the pair that no other quote is later than. */
  predicate IsLatest(rows: seq<Rate>, base: Currency, quote: Currency, asOf: int, r: Rate) {
    && r in rows
    && Quotes(r, base, quote, asOf)
    && forall other <- rows :: Quotes(other, base, quote, asOf) ==> other.effectiveAt <= r.effectiveAt
  }

  predicate DistinctTimes(rows: seq<Rate>) {
    forall i, j | 0 <= i < j < |rows| ::
      rows[i].base == rows[j].base && rows[i].quote == rows[j].quote ==> rows[i].effectiveAt != rows[j].effectiveAt
  }

  lemma {:induction false} LatestIsLatest(rows: seq<Rate>, base: Currency, quote: Currency, asOf: int)
    ensures match Latest(rows, base, quote, asOf)
      case Some(r) => IsLatest(rows, base, quote, asOf, r)
      case None => forall r <- rows :: !Quotes(r, base, quote, asOf)
  {
    if rows == [] {
    } else {
      var front, last := rows[..|rows| - 1], rows[|rows| - 1];
      LatestIsLatest(front, base, quote, asOf);
      assert rows == front + [last];
    }
  }

  /** With distinct instants per pair the answer is unique, so the query's tie-breaking is moot. */
  lemma LatestIsUnique(rows: seq<Rate>, base: Currency, quote: Currency, asOf: int, r: Rate)
    requires DistinctTimes(rows)
    ensures IsLatest(rows, base, quote, asOf, r) <==> Latest(rows, base, quote, asOf) == Some(r)
  {
    LatestIsLatest(rows, base, quote, asOf);
    if IsLatest(rows, base, quote, asOf, r) {
      var found := Latest(rows, base, quote, asOf).value;
      var i :| 0 <= i < |rows| && rows[i] == r;
      var j :| 0 <= j < |rows| && rows[j] == found;
    }
  }

  // ----- Which rate that makes -----

  /** `r` is in force for the pair at `asOf`, and every other row in force is older. */
  predicate Governs(rows: seq<Rate>, base: Currency, quote: Currency, asOf: int, r: Rate) {
    && r in rows && r.base == base && r.quote == quote && r.effectiveAt <= asOf
    && forall other <- rows | other.base == base && other.quote == quote && other.effectiveAt <= asOf ::
         other == r || other.effectiveAt < r.effectiveAt
  }

  predicate Unquoted(rows: seq<Rate>, base: Currency, quote: Currency, asOf: int) {
    forall r <- rows :: !(r.base == base && r.quote == quote && r.effectiveAt <= asOf)
  }

  lemma GoverningRowIsLatest(rows: seq<Rate>, base: Currency, quote: Currency, asOf: int, r: Rate)
    requires Governs(rows, base, quote, asOf, r)
    ensures Latest(rows, base, quote, asOf) == Some(r)
  {
    LatestIsLatest(rows, base, quote, asOf);
    assert Quotes(r, base, quote, asOf);
  }

  lemma UnquotedHasNoLatest(rows: seq<Rate>, base: Currency, quote: Currency, asOf: int)
    requires Unquoted(rows, base, quote, asOf)
    ensures Latest(rows, base, quote, asOf).None?
  {
    LatestIsLatest(rows, base, quote, asOf);
  }

  /** A row that governs the asked direction is used as it stands, whatever the other direction says. */
  lemma DirectQuoteIsUsed(rows: seq<Rate>, base: Currency, quote: Currency, asOf: int, r: Rate)
    requires base != quote && Governs(rows, base, quote, asOf, r)
    ensures Resolve(rows, base, quote, asOf) == Ok(ResolvedRate(r.rate, Direct(r.source), Some(r.id), r.effectiveAt))
  {
    GoverningRowIsLatest(rows, base, quote, asOf, r);
  }

  /** Only where that direction is unquoted is the other one used, upside down; a zero has no reciprocal. */
  lemma ReciprocalIsUsed(rows: seq<Rate>, base: Currency, quote: Currency, asOf: int, r: Rate)
    requires base != quote && Unquoted(rows, base, quote, asOf) && Governs(rows, quote, base, asOf, r)
    ensures var found := Resolve(rows, base, quote, asOf);
      if r.rate == 0.0 then found == Err(RateUnavailable)
      else found.Ok? && found.value.rate * r.rate == 1.0 && found.value.provenance == Reciprocal(r.source)
           && found.value.rateId == Some(r.id) && found.value.effectiveAt == r.effectiveAt
  {
    UnquotedHasNoLatest(rows, base, quote, asOf);
    GoverningRowIsLatest(rows, quote, base, asOf, r);
  }

  lemma ReciprocalIs(rows: seq<Rate>, base: Currency, quote: Currency, asOf: int, r: Rate, inverse: real)
    requires base != quote && Unquoted(rows, base, quote, asOf) && Governs(rows, quote, base, asOf, r) && inverse * r.rate == 1.0
    ensures Resolve(rows, base, quote, asOf) == Ok(ResolvedRate(inverse, Reciprocal(r.source), Some(r.id), r.effectiveAt))
  {
    ReciprocalIsUsed(rows, base, quote, asOf, r);
    QuotientIs(1.0, r.rate, inverse);
    QuotientIs(1.0, r.rate, Resolve(rows, base, quote, asOf).value.rate);
  }

  /** A currency is worth itself; a pair quoted in neither direction has no rate. */
  lemma OtherwiseIdentityOrNone(rows: seq<Rate>, base: Currency, quote: Currency, asOf: int)
    ensures base == quote ==> Resolve(rows, base, quote, asOf) == Ok(ResolvedRate(1.0, Identity, None, asOf))
    ensures base != quote && Unquoted(rows, base, quote, asOf) && Unquoted(rows, quote, base, asOf) ==>
      Resolve(rows, base, quote, asOf) == Err(RateUnavailable)
  {
    LatestIsLatest(rows, base, quote, asOf);
    LatestIsLatest(rows, quote, base, asOf);
  }

  // ----- Historical stability -----

  predicate Wins(rows: seq<Rate>, base: Currency, quote: Currency, asOf: int, r: Rate) {
    && Quotes(r, base, quote, asOf)
    && forall other <- rows :: Quotes(other, base, quote, asOf) ==> other.effectiveAt < r.effectiveAt
  }

  /** An appended row changes the answer exactly when it is in force by then and newer than the old answer. */
  lemma AppendedRowChangesLatestIff(rows: seq<Rate>, base: Currency, quote: Currency, asOf: int, r: Rate)
    ensures Latest(rows + [r], base, quote, asOf) != Latest(rows, base, quote, asOf)
        <==> Wins(rows, base, quote, asOf, r)
    ensures Wins(rows, base, quote, asOf, r) ==> Latest(rows + [r], base, quote, asOf) == Some(r)
  {
    assert (rows + [r])[..|rows|] == rows;
    LatestIsLatest(rows, base, quote, asOf);
  }

  lemma {:induction false} LaterRowsDoNotMatter(rows: seq<Rate>, added: seq<Rate>, base: Currency, quote: Currency, asOf: int)
    requires forall r <- added :: r.effectiveAt > asOf
    ensures Latest(rows + added, base, quote, asOf) == Latest(rows, base, quote, asOf)
  {
    if added == [] {
      assert rows + added == rows;
    } else {
      var front, last := added[..|added| - 1], added[|added| - 1];
      LaterRowsDoNotMatter(rows, front, base, quote, asOf);
      assert rows + added == (rows + front) + [last];
      AppendedRowChangesLatestIff(rows + front, base, quote, asOf, last);
    }
  }

  /** Quotes that take effect later never rewrite a conversion that already happened. */
  lemma ResolutionIsHistoricallyStable(rows: seq<Rate>, added: seq<Rate>, base: Currency, quote: Currency, asOf: int)
    requires forall r <- added :: r.effectiveAt > asOf
    ensures Resolve(rows + added, base, quote, asOf) == Resolve(rows, base, quote, asOf)
  {
    LaterRowsDoNotMatter(rows, added, base, quote, asOf);
    LaterRowsDoNotMatter(rows, added, quote, base, asOf);
  }

  /** If only one direction of a pair is maintained, the two resolved rates are reciprocals, as long as
      the division is exact: here it is not rounded. */
  lemma OneSidedPairIsConsistent(rows: seq<Rate>, base: Currency, quote: Currency, asOf: int)
    requires base != quote
    requires Resolve(rows, base, quote, asOf).Ok?
    requires forall r <- rows :: !Quotes(r, quote, base, asOf)
    requires Resolve(rows, base, quote, asOf).value.rate != 0.0
    ensures Resolve(rows, quote, base, asOf).Ok?
    ensures Resolve(rows, quote, base, asOf).value.rate * Resolve(rows, base, quote, asOf).value.rate == 1.0
  {
    LatestIsLatest(rows, base, quote, asOf);
    LatestIsLatest(rows, quote, base, asOf);
  }

  /** Publishing takes positive rates only, but storing one with ten decimals can round it to zero. */
  predicate NonNegativeRates(rows: seq<Rate>) {
    forall r <- rows :: r.rate >= 0.0
  }

  lemma ResolvedRateIsNonNegative(rows: seq<Rate>, base: Currency, quote: Currency, asOf: int)
    requires NonNegativeRates(rows)
    requires Resolve(rows, base, quote, asOf).Ok?
    ensures Resolve(rows, base, quote, asOf).value.rate >= 0.0
  {
    LatestIsLatest(rows, base, quote, asOf);
    LatestIsLatest(rows, quote, base, asOf);
  }
}
