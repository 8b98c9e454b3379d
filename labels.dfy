/**
 * The delete selector shows each guest as the label `nom (date)`; the
 * chosen label is read back by splitting on " (", unpacking exactly two
 * parts and stripping the trailing ")" characters of the second.
 */
module Labels {
  import opened Wrappers
  import opened Text
  import opened Guests

  const Separator: string := " ("

  /** The label of the pair (nom, date). */
  function Label(nom: string, date: string): (r: string)
    ensures Contains(r, Separator)
    ensures r[|r| - 1] == ')'
  {
    var l := nom + Separator + date + ")";
    assert l[|nom|..|nom| + 2] == Separator;
    assert OccursAt(l, Separator, |nom|);
    l
  }

  /** The label the delete selector shows for a guest; a safe pair parses back to itself. */
  function LabelOf(g: Guest): (r: string)
    ensures SafeNom(g.nom) && SafeDate(g.dateInvitation) ==>
      ParseLabel(r) == Ok((g.nom, g.dateInvitation))
  {
    if SafeNom(g.nom) && SafeDate(g.dateInvitation) then
      LabelRoundTrip(g.nom, g.dateInvitation);
      Label(g.nom, g.dateInvitation)
    else
      Label(g.nom, g.dateInvitation)
  }

  /** The options of the delete selector, one per guest in list order. */
  function DeleteOptions(guests: seq<Guest>): (r: seq<string>)
    ensures |r| == |guests|
    ensures forall i :: 0 <= i < |r| && SafeNom(guests[i].nom) && SafeDate(guests[i].dateInvitation) ==>
      ParseLabel(r[i]) == Ok((guests[i].nom, guests[i].dateInvitation))
  {
    seq(|guests|, i requires 0 <= i < |guests| => LabelOf(guests[i]))
  }

  /** The two-name unpack failed: the split gave `parts` pieces instead of two. */
  datatype LabelError = UnpackError(parts: nat)

  /** A nom the label can carry: it has no " (". */
  predicate SafeNom(nom: string) {
    !Contains(nom, Separator)
  }

  /** A date the label can carry: no " (" and no trailing ")". */
  predicate SafeDate(date: string) {
    !Contains(date, Separator) && (date == [] || date[|date| - 1] != ')')
  }

  /** `nom_sel, date_sel = choix.split(" ("); date_sel = date_sel.rstrip(")")`. */
  function ParseLabel(choice: string): (r: Result<(string, string), LabelError>)
    ensures r.Ok? ==> SafeNom(r.value.0) && SafeDate(r.value.1)
    ensures r.Err? ==> r.error.parts != 2
  {
    var parts := Split(choice, Separator);
    if |parts| != 2 then Err(UnpackError(|parts|))
    else
      var date := RStrip(parts[1], ')');
      PrefixKeepsAbsence(parts[1], date, Separator);
      Ok((parts[0], date))
  }

  /** Every label holds a separator, so its split never has fewer than two parts. */
  lemma LabelNeverTooFew(nom: string, date: string)
    ensures |Split(Label(nom, date), Separator)| >= 2
  {
  }

  /** Where the label's pieces touch, no " (" can form across the seam. */
  lemma NoSeparatorBefore(nom: string, date: string, j: nat)
    requires SafeNom(nom) && j < |nom|
    ensures !OccursAt(Label(nom, date), Separator, j)
  {
    var l := Label(nom, date);
    assert l == nom + (Separator + date + ")");
    if j + 2 <= |nom| {
      assert l[j..j + 2] == nom[j..j + 2];
      assert j <= |nom| && !OccursAt(nom, Separator, j);
    } else {
      assert j + 1 == |nom| && l[j + 1] == Separator[0] == ' ';
      assert j + 2 <= |l| && l[j..j + 2][1] == l[j + 1] != Separator[1];
    }
  }

  /** A nom without " (" is cut off exactly at the separator the label adds. */
  lemma SplitLabel(nom: string, date: string)
    requires SafeNom(nom)
    ensures Split(Label(nom, date), Separator) == [nom] + Split(date + ")", Separator)
  {
    var l := Label(nom, date);
    assert l[|nom|..|nom| + 2] == Separator;
    forall j: nat | j < |nom|
      ensures !OccursAt(l, Separator, j)
    {
      NoSeparatorBefore(nom, date, j);
    }
    FindFromFirst(l, Separator, |nom|);
    assert l[..|nom|] == nom;
    assert l[|nom| + 2..] == date + ")";
  }

  /** The closing ")" never completes a " (", so it adds no separator. */
  lemma CloseKeepsAbsence(date: string)
    requires !Contains(date, Separator)
    ensures !Contains(date + ")", Separator)
  {
    var t := date + ")";
    forall j: nat
      ensures !OccursAt(t, Separator, j)
    {
      if j + 2 <= |date| {
        assert t[j..j + 2] == date[j..j + 2];
        assert j <= |date| && !OccursAt(date, Separator, j);
      } else if j + 2 == |t| {
        assert t[j + 1] == ')';
      }
    }
  }

  /** A " (" inside the date is still there once ")" is appended. */
  lemma CloseKeepsPresence(date: string)
    requires Contains(date, Separator)
    ensures Contains(date + ")", Separator)
  {
    var j: nat :| j <= |date| && OccursAt(date, Separator, j);
    assert (date + ")")[j..j + 2] == date[j..j + 2];
    assert j <= |date + ")"| && OccursAt(date + ")", Separator, j);
  }

  /**
   * A label whose nom and date hold no " (" parses back to its nom and to
   * its date without the trailing ")" characters.
   */
  lemma ParseLabelOf(nom: string, date: string)
    requires SafeNom(nom) && !Contains(date, Separator)
    ensures ParseLabel(Label(nom, date)) == Ok((nom, RStrip(date + ")", ')')))
    ensures RStrip(date + ")", ')') == RStrip(date, ')')
  {
    SplitLabel(nom, date);
    CloseKeepsAbsence(date);
    SplitWithout(date + ")", Separator);
    assert (date + ")")[..|date|] == date;
  }

  /** Round trip: a safe (nom, date) pair is recovered exactly from its label. */
  lemma LabelRoundTrip(nom: string, date: string)
    requires SafeNom(nom) && SafeDate(date)
    ensures ParseLabel(Label(nom, date)) == Ok((nom, date))
  {
    ParseLabelOf(nom, date);
  }

  /**
   * A date ending in ")" comes back shortened: the rstrip takes its own
   * closing brackets too, so the delete targets another pair.
   */
  lemma LabelLosesDateParens(nom: string, date: string)
    requires SafeNom(nom) && !Contains(date, Separator)
    requires date != [] && date[|date| - 1] == ')'
    ensures ParseLabel(Label(nom, date)).Ok?
    ensures ParseLabel(Label(nom, date)).value.1 != date
  {
    ParseLabelOf(nom, date);
  }

  /** A nom holding " (" splits the label in three or more parts and the unpack fails. */
  lemma UnpackFailsOnNom(nom: string, date: string)
    requires Contains(nom, Separator)
    ensures ParseLabel(Label(nom, date)).Err?
    ensures ParseLabel(Label(nom, date)).error.parts >= 3
  {
    var l := Label(nom, date);
    var j: nat :| j <= |nom| && OccursAt(nom, Separator, j);
    assert l[j..j + 2] == nom[j..j + 2];
    assert OccursAt(l, Separator, j);
    var i := FindFrom(l, Separator, 0).value;
    var rest := l[i + 2..];
    assert rest[|nom| - i - 2..|nom| - i] == l[|nom|..|nom| + 2] == Separator;
    assert OccursAt(rest, Separator, |nom| - i - 2);
    assert Split(l, Separator) == [l[..i]] + Split(rest, Separator);
  }

  /** With a clean nom, a " (" inside the date also makes the unpack fail. */
  lemma UnpackFailsOnDate(nom: string, date: string)
    requires SafeNom(nom) && Contains(date, Separator)
    ensures ParseLabel(Label(nom, date)).Err?
    ensures ParseLabel(Label(nom, date)).error.parts >= 3
  {
    SplitLabel(nom, date);
    CloseKeepsPresence(date);
  }

  /** The label parses exactly when neither the nom nor the date holds " (". */
  lemma LabelParsesIff(nom: string, date: string)
    ensures ParseLabel(Label(nom, date)).Ok? <==> SafeNom(nom) && !Contains(date, Separator)
  {
    if !SafeNom(nom) {
      UnpackFailsOnNom(nom, date);
    } else if Contains(date, Separator) {
      UnpackFailsOnDate(nom, date);
    } else {
      ParseLabelOf(nom, date);
    }
  }

  /** A parsed pair, labelled again, parses to itself. */
  lemma ParseLabelStable(choice: string)
    requires ParseLabel(choice).Ok?
    ensures ParseLabel(Label(ParseLabel(choice).value.0, ParseLabel(choice).value.1)) == ParseLabel(choice)
  {
    var p := ParseLabel(choice).value;
    LabelRoundTrip(p.0, p.1);
  }

  /** An ISO date text has no space and ends in a digit. */
  lemma IsoDateSafe(d: CalendarDate)
    ensures SafeDate(IsoDate(d))
  {
    var s := IsoDate(d);
    forall j: nat
      ensures !OccursAt(s, Separator, j)
    {
      if j + 2 <= |s| {
        assert s[j..j + 2][0] == s[j];
        assert s[j] == '-' || IsDigit(s[j]);
      }
    }
    assert IsDigit(s[9]);
  }

  /**
   * A guest entered through the form, whose nom holds no " (", is found
   * again from its label: the date text the form stores is always safe.
   */
  lemma FormGuestLabelRoundTrip(f: GuestForm)
    requires SafeNom(f.nom)
    ensures ParseLabel(LabelOf(MakeGuest(f))) == Ok((f.nom, IsoDate(f.date)))
  {
    IsoDateSafe(f.date);
    LabelRoundTrip(f.nom, IsoDate(f.date));
  }

  /** Deleting through the label of a safe guest removes that guest. */
  lemma DeleteByLabelRemoves(guests: seq<Guest>, k: nat)
    requires k < |guests| && SafeNom(guests[k].nom) && SafeDate(guests[k].dateInvitation)
    ensures ParseLabel(DeleteOptions(guests)[k]) == Ok((guests[k].nom, guests[k].dateInvitation))
    ensures guests[k] !in Delete(guests, guests[k].nom, guests[k].dateInvitation)
    ensures |Delete(guests, guests[k].nom, guests[k].dateInvitation)| < |guests|
  {
    LabelRoundTrip(guests[k].nom, guests[k].dateInvitation);
    DeletePresent(guests, guests[k].nom, guests[k].dateInvitation, k);
  }
}
