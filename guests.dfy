/**
 * The guest catalogue: nine-field records kept in insertion order, the
 * record built from the entry form (the invitation date stored as its ISO
 * text), the search by name and the delete by (nom, date) pair.
 */
module Guests {
  import opened Text
  import opened Filtering

  /** A calendar date as the date widget returns it. */
  datatype Date = Date(year: int, month: int, day: int)

  predicate IsLeapYear(y: int) {
    y % 4 == 0 && (y % 100 != 0 || y % 400 == 0)
  }

  function DaysInMonth(y: int, m: int): int {
    if m == 2 then (if IsLeapYear(y) then 29 else 28)
    else if m == 4 || m == 6 || m == 9 || m == 11 then 30
    else 31
  }

  /** The range of Python's datetime.date: years 1 to 9999. */
  predicate ValidDate(d: Date) {
    1 <= d.year <= 9999 && 1 <= d.month <= 12 && 1 <= d.day <= DaysInMonth(d.year, d.month)
  }

  type CalendarDate = d: Date | ValidDate(d) witness Date(2000, 1, 1)

  function Pow10(n: nat): nat {
    if n == 0 then 1 else 10 * Pow10(n - 1)
  }

  predicate IsDigit(c: char) {
    '0' <= c <= '9'
  }

  function DigitChar(n: nat): char
    requires n < 10
  {
    ('0' as int + n) as char
  }

  /** The last `width` decimal digits of `n`, zero-padded (Python's "%0*d" for small n). */
  function PadDigits(n: nat, width: nat): (r: string)
    ensures |r| == width
    ensures forall i :: 0 <= i < |r| ==> IsDigit(r[i])
    decreases width
  {
    if width == 0 then [] else PadDigits(n / 10, width - 1) + [DigitChar(n % 10)]
  }

  /** The number a string of decimal digits spells. */
  function DigitsValue(s: string): nat
    requires forall i :: 0 <= i < |s| ==> IsDigit(s[i])
    decreases |s|
  {
    if s == [] then 0
    else
      assert IsDigit(s[|s| - 1]);
      10 * DigitsValue(s[..|s| - 1]) + (s[|s| - 1] as int - '0' as int)
  }

  /** Zero-padding loses nothing when the number fits in the width. */
  lemma {:induction false} PadDigitsRoundTrip(n: nat, width: nat)
    requires n < Pow10(width)
    ensures DigitsValue(PadDigits(n, width)) == n
    decreases width
  {
    if width > 0 {
      var front := PadDigits(n / 10, width - 1);
      PadDigitsRoundTrip(n / 10, width - 1);
      assert PadDigits(n, width)[..width - 1] == front;
    }
  }

  /** The shape of an ISO date text: "YYYY-MM-DD". */
  predicate IsIsoShaped(s: string) {
    |s| == 10 && s[4] == '-' && s[7] == '-'
    && forall i :: 0 <= i < 10 && i != 4 && i != 7 ==> IsDigit(s[i])
  }

  /** str(date): the ISO text of a date. */
  function IsoDate(d: CalendarDate): (r: string)
    ensures IsIsoShaped(r)
  {
    PadDigits(d.year, 4) + "-" + PadDigits(d.month, 2) + "-" + PadDigits(d.day, 2)
  }

  /** Reads the date back from its ISO text. */
  function ParseIsoDate(s: string): Date
    requires IsIsoShaped(s)
  {
    Date(DigitsValue(s[0..4]), DigitsValue(s[5..7]), DigitsValue(s[8..10]))
  }

  /** The stored date text determines the date: str(date) is reversible. */
  lemma IsoDateRoundTrip(d: CalendarDate)
    ensures ParseIsoDate(IsoDate(d)) == d
  {
    var s := IsoDate(d);
    assert s[0..4] == PadDigits(d.year, 4);
    assert s[5..7] == PadDigits(d.month, 2);
    assert s[8..10] == PadDigits(d.day, 2);
    assert Pow10(2) == 100 && Pow10(4) == 10000;
    PadDigitsRoundTrip(d.year, 4);
    PadDigitsRoundTrip(d.month, 2);
    PadDigitsRoundTrip(d.day, 2);
  }

  /** One guest record, with the field names of the guests file. */
  datatype Guest = Guest(
    nom: string,
    prenom: string,
    domaine: string,
    organisation: string,
    dateInvitation: string,
    numero: string,
    emission: string,
    chaine: string,
    studio: string)

  /** The values of the "add a guest" form. */
  datatype GuestForm = GuestForm(
    nom: string,
    prenom: string,
    domaine: string,
    organisation: string,
    date: CalendarDate,
    numero: string,
    emission: string,
    chaine: string,
    studio: string)

  /** The record saved for a submitted form: every field as typed, the date as ISO text. */
  function MakeGuest(f: GuestForm): (g: Guest)
    ensures IsIsoShaped(g.dateInvitation) && ParseIsoDate(g.dateInvitation) == f.date
    ensures g.nom == f.nom && g.prenom == f.prenom && g.domaine == f.domaine
    ensures g.organisation == f.organisation && g.numero == f.numero
    ensures g.emission == f.emission && g.chaine == f.chaine && g.studio == f.studio
  {
    IsoDateRoundTrip(f.date);
    Guest(f.nom, f.prenom, f.domaine, f.organisation, IsoDate(f.date), f.numero, f.emission, f.chaine, f.studio)
  }

  /** The lower-cased nom or the lower-cased prenom contains the lower-cased query. */
  predicate Matches(g: Guest, query: string)
    ensures query == [] ==> Matches(g, query)
    ensures Matches(g, query) ==> |query| <= |g.nom| || |query| <= |g.prenom|
  {
    assert query == [] ==> OccursAt(LowerStr(g.nom), LowerStr(query), 0);
    Contains(LowerStr(g.nom), LowerStr(query)) || Contains(LowerStr(g.prenom), LowerStr(query))
  }

  function MatchesQuery(query: string): Guest -> bool {
    g => Matches(g, query)
  }

  /** The rows the search shows for a query. */
  function Search(guests: seq<Guest>, query: string): (r: seq<Guest>)
    ensures IsSubsequence(r, guests)
    ensures forall i :: 0 <= i < |r| ==> Matches(r[i], query)
  {
    FilterIsSubsequence(guests, MatchesQuery(query));
    Filter(guests, MatchesQuery(query))
  }

  /** The record has this (nom, date) pair, the key the delete uses. */
  predicate HasKey(g: Guest, nom: string, date: string) {
    g.nom == nom && g.dateInvitation == date
  }

  function KeepsKey(nom: string, date: string): Guest -> bool {
    g => !HasKey(g, nom, date)
  }

  /** The guest list after deleting the pair (nom, date). */
  function Delete(guests: seq<Guest>, nom: string, date: string): (r: seq<Guest>)
    ensures IsSubsequence(r, guests)
    ensures forall i :: 0 <= i < |r| ==> !HasKey(r[i], nom, date)
  {
    FilterIsSubsequence(guests, KeepsKey(nom, date));
    Filter(guests, KeepsKey(nom, date))
  }

  /**
   * Search returns, in their original order, exactly the guests that
   * match: each matching guest as often as it is stored, no other guest.
   */
  lemma SearchExact(guests: seq<Guest>, query: string)
    ensures IsSubsequence(Search(guests, query), guests)
    ensures forall g :: multiset(Search(guests, query))[g] == if Matches(g, query) then multiset(guests)[g] else 0
    ensures forall i :: 0 <= i < |Search(guests, query)| ==> Matches(Search(guests, query)[i], query)
  {
    FilterIsSubsequence(guests, MatchesQuery(query));
    forall g
      ensures multiset(Search(guests, query))[g] == if Matches(g, query) then multiset(guests)[g] else 0
    {
      FilterCount(guests, MatchesQuery(query), g);
    }
  }

  /** The search finds nothing exactly when no stored guest matches. */
  lemma SearchEmpty(guests: seq<Guest>, query: string)
    ensures Search(guests, query) == [] <==> forall i :: 0 <= i < |guests| ==> !Matches(guests[i], query)
  {
    FilterEmpty(guests, MatchesQuery(query));
  }

  /** The query's letter case does not matter. */
  lemma SearchIgnoresCase(guests: seq<Guest>, query: string)
    ensures Search(guests, LowerStr(query)) == Search(guests, query)
  {
    LowerStrIdempotent(query);
    FilterCongruent(guests, MatchesQuery(LowerStr(query)), MatchesQuery(query));
  }

  /** After adding a guest, the search shows the earlier results, then the new guest if it matches. */
  lemma SearchAfterAdd(guests: seq<Guest>, g: Guest, query: string)
    ensures Search(guests + [g], query) == Search(guests, query) + (if Matches(g, query) then [g] else [])
  {
    FilterAppend(guests, g, MatchesQuery(query));
  }

  /**
   * Delete keeps, in their original order, exactly the guests whose pair
   * differs: every record with the pair is gone (duplicates too), every
   * other record is kept as often as it was stored.
   */
  lemma DeleteExact(guests: seq<Guest>, nom: string, date: string)
    ensures IsSubsequence(Delete(guests, nom, date), guests)
    ensures forall g :: multiset(Delete(guests, nom, date))[g] == if HasKey(g, nom, date) then 0 else multiset(guests)[g]
    ensures forall i :: 0 <= i < |Delete(guests, nom, date)| ==> !HasKey(Delete(guests, nom, date)[i], nom, date)
  {
    FilterIsSubsequence(guests, KeepsKey(nom, date));
    forall g
      ensures multiset(Delete(guests, nom, date))[g] == if HasKey(g, nom, date) then 0 else multiset(guests)[g]
    {
      FilterCount(guests, KeepsKey(nom, date), g);
    }
  }

  /** Deleting a pair that no record has leaves the list unchanged. */
  lemma DeleteAbsent(guests: seq<Guest>, nom: string, date: string)
    requires forall i :: 0 <= i < |guests| ==> !HasKey(guests[i], nom, date)
    ensures Delete(guests, nom, date) == guests
  {
    FilterKeepsAll(guests, KeepsKey(nom, date));
  }

  /** Deleting a pair that some record has makes the list shorter. */
  lemma DeletePresent(guests: seq<Guest>, nom: string, date: string, k: nat)
    requires k < |guests| && HasKey(guests[k], nom, date)
    ensures |Delete(guests, nom, date)| < |guests|
    ensures guests[k] !in Delete(guests, nom, date)
  {
    FilterShrinks(guests, KeepsKey(nom, date), k);
    DeleteExact(guests, nom, date);
  }

  /** The "Ali Ben" guest of 2024-01-01 is found by the query "ali". */
  lemma SearchAliScenario(g: Guest)
    requires g.nom == "Ali" && g.prenom == "Ben"
    ensures Search([g], "ali") == [g]
  {
    assert LowerStr("Ali") == "ali";
    assert LowerStr("ali") == "ali";
    assert OccursAt("ali", "ali", 0);
  }
}
