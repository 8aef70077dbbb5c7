/**
 * DiveObjectHelper: the display strings of one dive, built once from the
 * dive record and read back by the user interface.
 */
module DiveView {
  import opened Dives
  import opened Text

  /** What the views show for a field that has no value. */
  const EMPTY_DIVE_STRING: string := "--"
  /** What joins two gases in the gas summary. */
  const GAS_SEPARATOR: string := " / "
  /** The dive-computer model name of a dive made by the planner. */
  const PLANNED_DIVE_MODEL: string := "planned dive"
  /** The marker that carries a line break through the HTML-to-text conversion. */
  const NOTES_BR: string := "&#92n"

  lemma CommaMeansNotPlaceholder(s: string, k: nat)
    requires k < |s| && s[k] == ','
    ensures s != EMPTY_DIVE_STRING
  {
  }

  /** The display text of weight system `idx`: the placeholder exactly when it has no description. */
  function FormattedWeight(f: Formatters, d: Dive, idx: nat): (r: string)
    requires idx < |d.weightsystem|
    ensures r == EMPTY_DIVE_STRING <==> d.weightsystem[idx].description.None?
    ensures d.weightsystem[idx].description.Some? ==>
      r == d.weightsystem[idx].description.value + ", " + f.weightString(d.weightsystem[idx].weightGrams)
  {
    var weight := d.weightsystem[idx];
    if weight.description.None? then EMPTY_DIVE_STRING
    else
      var fmt := weight.description.value + ", " + f.weightString(weight.weightGrams);
      CommaMeansNotPlaceholder(fmt, |weight.description.value|);
      fmt
  }

  /** The label of a cylinder: its description, or "unknown" when it has none. */
  function CylinderLabel(description: Option<string>): string
  {
    if description.Some? then description.value else "unknown"
  }

  /**
   * The display text of cylinder `idx`: the placeholder exactly when it has no
   * description and is not the first cylinder; otherwise its label, size,
   * working pressure, start and end pressures and gas, comma-separated.
   */
  function FormattedCylinder(f: Formatters, d: Dive, idx: nat): (r: string)
    requires idx < |d.cylinder|
    ensures r == EMPTY_DIVE_STRING <==> d.cylinder[idx].cylType.description.None? && idx > 0
    ensures r != EMPTY_DIVE_STRING ==>
      IsPrefix(CylinderLabel(d.cylinder[idx].cylType.description) + ", ", r)
    ensures d.cylinder[idx].cylType.description.None? && idx == 0 ==> IsPrefix("unknown", r)
    ensures r != EMPTY_DIVE_STRING ==>
      var cyl := d.cylinder[idx];
      r == CylinderLabel(cyl.cylType.description)
        + ", " + f.volumeString(cyl.cylType.sizeMl)
        + ", " + f.pressureString(cyl.cylType.workingPressureMbar, true)
        + ", " + f.pressureString(cyl.startMbar, false) + " - " + f.pressureString(cyl.endMbar, true)
        + ", " + f.gasString(cyl.gasmix)
  {
    var cyl := d.cylinder[idx];
    var desc := cyl.cylType.description;
    if desc.None? && idx > 0 then EMPTY_DIVE_STRING
    else
      var name := CylinderLabel(desc);
      var rest := f.volumeString(cyl.cylType.sizeMl)
        + ", " + f.pressureString(cyl.cylType.workingPressureMbar, true)
        + ", " + f.pressureString(cyl.startMbar, false) + " - " + f.pressureString(cyl.endMbar, true)
        + ", " + f.gasString(cyl.gasmix);
      var fmt := name + ", " + rest;
      assert fmt[..|name| + 2] == name + ", ";
      CommaMeansNotPlaceholder(fmt, |name|);
      fmt
  }

  /** A temperature text, or the placeholder when the helper gave nothing. */
  function OrPlaceholder(s: string): (r: string)
    ensures r != ""
    ensures s != "" ==> r == s
    ensures s == "" ==> r == EMPTY_DIVE_STRING
  {
    if s == "" then EMPTY_DIVE_STRING else s
  }

  /** The notes of a planner dive: marked-up HTML turned into text, line breaks kept as "<br>". */
  function PlannedNotes(f: Formatters, notes: string): string
  {
    var marked :=
      ReplaceAll(
        ReplaceAll(
          ReplaceAll(
            ReplaceAll(notes, "<thead>", "<thead>" + NOTES_BR),
            "<br>", "<br>" + NOTES_BR),
          "<tr>", "<tr>" + NOTES_BR),
        "</tr>", "</tr>" + NOTES_BR);
    ReplaceAll(f.htmlToPlainText(marked), NOTES_BR, "<br>")
  }

  /** A possibly-null C string as display text: the placeholder when it is null. */
  function TextOrPlaceholder(s: Option<string>): (r: string)
    ensures s.None? ==> r == EMPTY_DIVE_STRING
    ensures s.Some? ==> r == FromCString(s)
  {
    if s.Some? then s.value else EMPTY_DIVE_STRING
  }

  /** The trip text: the trip's location, or the placeholder for a dive outside any trip. */
  function TripText(d: Dive): (r: string)
    ensures d.divetrip.None? ==> r == EMPTY_DIVE_STRING
    ensures d.divetrip.Some? ==> r == FromCString(d.divetrip.value.location)
  {
    if d.divetrip.Some? then FromCString(d.divetrip.value.location) else EMPTY_DIVE_STRING
  }

  /**
   * The displayed notes of a dive whose notes are not empty: for a dive not
   * made by the planner, every line break becomes "<br>" and nothing else
   * changes.
   */
  function DisplayNotes(f: Formatters, d: Dive): (r: string)
    ensures !SameString(d.dcModel, PLANNED_DIVE_MODEL) ==> '\n' !in r
    ensures !SameString(d.dcModel, PLANNED_DIVE_MODEL) && '\n' !in FromCString(d.notes) ==>
      r == FromCString(d.notes)
    ensures !SameString(d.dcModel, PLANNED_DIVE_MODEL) ==>
      forall a, b :: FromCString(d.notes) == a + "\n" + b ==>
        r == ReplaceAll(a, "\n", "<br>") + "<br>" + ReplaceAll(b, "\n", "<br>")
  {
    var text := FromCString(d.notes);
    if SameString(d.dcModel, PLANNED_DIVE_MODEL) then PlannedNotes(f, text)
    else
      ReplaceAllAtChar(text, '\n', "<br>");
      ReplaceAllRemovesChar(text, '\n', "<br>");
      ReplaceAllWithoutChar(text, '\n', "<br>");
      ReplaceAll(text, "\n", "<br>")
  }

  /**
   * The gas text of cylinder `i`: its description, a space, and its gas name;
   * without description, only the gas name.
   */
  function GasEntry(f: Formatters, d: Dive, i: nat): (r: string)
    requires i < |d.cylinder|
    ensures r == "" <==> FromCString(d.cylinder[i].cylType.description) == "" && f.gasName(d.cylinder[i].gasmix) == ""
    ensures FromCString(d.cylinder[i].cylType.description) != "" ==>
      IsPrefix(FromCString(d.cylinder[i].cylType.description) + " ", r)
    ensures var description := FromCString(d.cylinder[i].cylType.description);
      r == description + (if description != "" then " " else "") + f.gasName(d.cylinder[i].gasmix)
  {
    var description := FromCString(d.cylinder[i].cylType.description);
    var r := description + (if description != "" then " " else "") + f.gasName(d.cylinder[i].gasmix);
    assert description != "" ==> r[..|description| + 1] == description + " ";
    r
  }

  /** The gas texts of the used cylinders among the first `n`, in cylinder order. */
  function UsedGasEntries(f: Formatters, d: Dive, n: nat): seq<string>
    requires n <= |d.cylinder|
  {
    if n == 0 then []
    else UsedGasEntries(f, d, n - 1) + (if f.cylinderUsed(d, n - 1) then [GasEntry(f, d, n - 1)] else [])
  }

  /**
   * The entries the gas summary keeps, in order: an entry is kept when it is
   * not empty and does not already occur, as a substring, in the summary
   * joined so far.
   */
  function Deduplicated(entries: seq<string>): seq<string>
  {
    if entries == [] then []
    else
      var kept := Deduplicated(entries[..|entries| - 1]);
      var entry := entries[|entries| - 1];
      if entry != "" && IndexOf(Join(kept, GAS_SEPARATOR), entry) == -1 then kept + [entry] else kept
  }

  /** The gas summary: the kept gas texts of the used cylinders joined by " / ". */
  function GasSummary(f: Formatters, d: Dive): string
    requires HasFixedArrays(d)
  {
    Join(Deduplicated(UsedGasEntries(f, d, MAX_CYLINDERS)), GAS_SEPARATOR)
  }

  lemma DeduplicatedSnoc(entries: seq<string>, entry: string)
    ensures Deduplicated(entries + [entry]) ==
      if entry != "" && IndexOf(Join(Deduplicated(entries), GAS_SEPARATOR), entry) == -1
      then Deduplicated(entries) + [entry] else Deduplicated(entries)
  {
    assert (entries + [entry])[..|entries|] == entries;
  }

  /** Every kept entry is a non-empty entry of the input. */
  lemma {:induction false} DeduplicatedSound(entries: seq<string>)
    ensures forall j :: 0 <= j < |Deduplicated(entries)| ==>
      Deduplicated(entries)[j] != "" && Deduplicated(entries)[j] in entries
  {
    if entries != [] {
      var init := entries[..|entries| - 1];
      DeduplicatedSound(init);
      assert forall e :: e in init ==> e in entries;
    }
  }

  /** Every non-empty entry of the input occurs in the summary: an entry is only skipped when it is already there. */
  lemma {:induction false} DeduplicatedComplete(entries: seq<string>)
    ensures forall j :: 0 <= j < |entries| && entries[j] != "" ==>
      Occurs(Join(Deduplicated(entries), GAS_SEPARATOR), entries[j])
  {
    if entries != [] {
      var init := entries[..|entries| - 1];
      var entry := entries[|entries| - 1];
      var kept := Deduplicated(init);
      DeduplicatedComplete(init);
      assert entries == init + [entry];
      DeduplicatedSnoc(init, entry);
      var joined := Join(kept, GAS_SEPARATOR);
      IndexOfFirstOccurrence(joined, entry);
      if entry != "" && IndexOf(joined, entry) == -1 {
        JoinSnoc(kept, entry, GAS_SEPARATOR);
        var suffix := if kept == [] then entry else GAS_SEPARATOR + entry;
        assert Join(Deduplicated(entries), GAS_SEPARATOR) == joined + suffix;
        forall j | 0 <= j < |entries| && entries[j] != ""
          ensures Occurs(Join(Deduplicated(entries), GAS_SEPARATOR), entries[j])
        {
          if j < |init| {
            assert entries[j] == init[j];
            OccursInExtension(joined, suffix, entries[j]);
          } else {
            JoinContainsEach(kept + [entry], GAS_SEPARATOR, |kept|);
          }
        }
      } else {
        forall j | 0 <= j < |entries| && entries[j] != ""
          ensures Occurs(Join(Deduplicated(entries), GAS_SEPARATOR), entries[j])
        {
          if j < |init| {
            assert entries[j] == init[j];
          }
        }
      }
    }
  }

  /** No kept entry occurs in the summary of the entries kept before it. */
  lemma {:induction false} DeduplicatedNewWhenKept(entries: seq<string>)
    ensures forall k :: 0 <= k < |Deduplicated(entries)| ==>
      !Occurs(Join(Deduplicated(entries)[..k], GAS_SEPARATOR), Deduplicated(entries)[k])
  {
    if entries != [] {
      var init := entries[..|entries| - 1];
      var entry := entries[|entries| - 1];
      var kept := Deduplicated(init);
      DeduplicatedNewWhenKept(init);
      assert entries == init + [entry];
      DeduplicatedSnoc(init, entry);
      if entry != "" && IndexOf(Join(kept, GAS_SEPARATOR), entry) == -1 {
        IndexOfFirstOccurrence(Join(kept, GAS_SEPARATOR), entry);
        var all := kept + [entry];
        forall k | 0 <= k < |all|
          ensures !Occurs(Join(all[..k], GAS_SEPARATOR), all[k])
        {
          if k < |kept| {
            assert all[..k] == kept[..k];
            assert all[k] == kept[k];
          } else {
            assert all[..k] == kept;
          }
        }
      }
    }
  }

  /** The summary never names the same entry twice. */
  lemma DeduplicatedDistinct(entries: seq<string>)
    ensures forall j, k :: 0 <= j < k < |Deduplicated(entries)| ==>
      Deduplicated(entries)[j] != Deduplicated(entries)[k]
  {
    var kept := Deduplicated(entries);
    DeduplicatedNewWhenKept(entries);
    forall j, k | 0 <= j < k < |kept| ensures kept[j] != kept[k] {
      JoinContainsEach(kept[..k], GAS_SEPARATOR, j);
      assert kept[..k][j] == kept[j];
    }
  }

  /** The gas texts collected are exactly those of the used cylinders among the first `n`. */
  lemma {:induction false} UsedGasEntriesAreUsedCylinders(f: Formatters, d: Dive, n: nat)
    requires n <= |d.cylinder|
    ensures forall e :: e in UsedGasEntries(f, d, n) <==>
      exists i :: 0 <= i < n && f.cylinderUsed(d, i) && GasEntry(f, d, i) == e
  {
    if n > 0 {
      UsedGasEntriesAreUsedCylinders(f, d, n - 1);
      forall e ensures e in UsedGasEntries(f, d, n) <==>
        exists i :: 0 <= i < n && f.cylinderUsed(d, i) && GasEntry(f, d, i) == e
      {
        if exists i :: 0 <= i < n && f.cylinderUsed(d, i) && GasEntry(f, d, i) == e {
          var i :| 0 <= i < n && f.cylinderUsed(d, i) && GasEntry(f, d, i) == e;
          if i < n - 1 {
            assert e in UsedGasEntries(f, d, n - 1);
          }
        }
      }
    }
  }

  /** Every used cylinder with a non-empty gas text is mentioned in the gas summary. */
  lemma GasSummaryMentionsEveryUsedGas(f: Formatters, d: Dive, i: nat)
    requires HasFixedArrays(d)
    requires i < MAX_CYLINDERS && f.cylinderUsed(d, i) && GasEntry(f, d, i) != ""
    ensures Occurs(GasSummary(f, d), GasEntry(f, d, i))
  {
    var entries := UsedGasEntries(f, d, MAX_CYLINDERS);
    UsedGasEntriesAreUsedCylinders(f, d, MAX_CYLINDERS);
    assert GasEntry(f, d, i) in entries;
    var j :| 0 <= j < |entries| && entries[j] == GasEntry(f, d, i);
    DeduplicatedComplete(entries);
  }

  /**
   * The gas summary is the join of distinct, non-empty gas texts of used
   * cylinders, with one " / " between neighbours and none before the first.
   */
  lemma GasSummaryShape(f: Formatters, d: Dive)
    requires HasFixedArrays(d)
    ensures var kept := Deduplicated(UsedGasEntries(f, d, MAX_CYLINDERS));
      && GasSummary(f, d) == Join(kept, GAS_SEPARATOR)
      && (forall j :: 0 <= j < |kept| ==>
            && kept[j] != ""
            && exists i :: 0 <= i < MAX_CYLINDERS && f.cylinderUsed(d, i) && GasEntry(f, d, i) == kept[j])
      && (forall j, k :: 0 <= j < k < |kept| ==> kept[j] != kept[k])
      && (kept != [] ==> IsPrefix(kept[0], GasSummary(f, d)))
      && |GasSummary(f, d)| == TotalLength(kept) + (if kept == [] then 0 else (|kept| - 1) * |GAS_SEPARATOR|)
  {
    var entries := UsedGasEntries(f, d, MAX_CYLINDERS);
    var kept := Deduplicated(entries);
    UsedGasEntriesAreUsedCylinders(f, d, MAX_CYLINDERS);
    DeduplicatedSound(entries);
    DeduplicatedDistinct(entries);
    JoinLength(kept, GAS_SEPARATOR);
    if kept != [] {
      JoinStartsWithFirst(kept, GAS_SEPARATOR);
    }
  }

  /** The substring test skips a gas that differs from every one already listed. */
  lemma SubstringTestSkipsDistinctGas()
    ensures Deduplicated(["AL80 EAN32", "EAN32"]) == ["AL80 EAN32"]
  {
    var first := "AL80 EAN32";
    var entries := [first, "EAN32"];
    assert entries[..1] == [first];
    assert [first][..0] == [];
    assert Deduplicated([first]) == [first];
    assert Join([first], GAS_SEPARATOR) == first;
    assert IsPrefix("EAN32", first[5..]);
    assert IndexOf(first[5..], "EAN32") == 0;
    assert first[4..][1..] == first[5..];
    FirstCharMismatch("EAN32", first[4..]);
    assert IndexOf(first[4..], "EAN32") == 1;
    assert first[3..][1..] == first[4..];
    FirstCharMismatch("EAN32", first[3..]);
    assert IndexOf(first[3..], "EAN32") == 2;
    assert first[2..][1..] == first[3..];
    FirstCharMismatch("EAN32", first[2..]);
    assert IndexOf(first[2..], "EAN32") == 3;
    assert first[1..][1..] == first[2..];
    FirstCharMismatch("EAN32", first[1..]);
    assert IndexOf(first[1..], "EAN32") == 4;
    FirstCharMismatch("EAN32", first);
    assert IndexOf(first, "EAN32") == 5;
  }

  /**
   * What `m_maxcns(d->maxcns)` and `m_otu(d->otu)` build as written: a QString
   * from an int goes through QChar(int), one UTF-16 code unit holding the
   * value modulo 2^16, given here as its number.
   */
  function SingleCharString(n: int): (units: seq<int>)
    ensures |units| == 1 && 0 <= units[0] < 0x1_0000
    ensures units[0] == n % 0x1_0000
    ensures 0 <= n < 0x1_0000 ==> units[0] == n
  {
    [n % 0x1_0000]
  }

  /**
   * The character codes of a string, one per character. For characters of
   * the basic plane, such as the digits and '-' of a decimal text, these are
   * its UTF-16 code units.
   */
  function CodeUnits(s: string): seq<int>
  {
    seq(|s|, i requires 0 <= i < |s| => s[i] as int)
  }

  /** The one-code-unit text is never the decimal text of the value. */
  lemma SingleCharStringIsNeverDecimal(n: int)
    ensures SingleCharString(n) != CodeUnits(IntToString(n))
  {
    IntToStringLength(n);
    if 0 <= n < 10 {
      assert CodeUnits(IntToString(n))[0] == '0' as int + n;
    }
  }

  /**
   * One cylinder more: an unused cylinder leaves the kept entries as they
   * were; the gas text of a used one is offered to the deduplication after
   * those before it.
   */
  lemma UsedGasEntriesStep(f: Formatters, d: Dive, i: nat, entry: string)
    requires i < |d.cylinder|
    requires entry == GasEntry(f, d, i)
    ensures !f.cylinderUsed(d, i) ==> Deduplicated(UsedGasEntries(f, d, i + 1)) == Deduplicated(UsedGasEntries(f, d, i))
    ensures f.cylinderUsed(d, i) ==>
      var kept := Deduplicated(UsedGasEntries(f, d, i));
      Deduplicated(UsedGasEntries(f, d, i + 1)) ==
        if entry != "" && IndexOf(Join(kept, GAS_SEPARATOR), entry) == -1 then kept + [entry] else kept
  {
    if f.cylinderUsed(d, i) {
      assert UsedGasEntries(f, d, i + 1) == UsedGasEntries(f, d, i) + [entry];
      DeduplicatedSnoc(UsedGasEntries(f, d, i), entry);
    } else {
      assert UsedGasEntries(f, d, i + 1) == UsedGasEntries(f, d, i);
    }
  }

  /** Appending an entry the way the gas loop does extends the join by that entry. */
  lemma GasAppend(kept: seq<string>, gases: string, added: nat, entry: string)
    requires gases == Join(kept, GAS_SEPARATOR) && added == |kept|
    ensures (if added > 0 then gases + GAS_SEPARATOR else gases) + entry == Join(kept + [entry], GAS_SEPARATOR)
  {
    JoinSnoc(kept, entry, GAS_SEPARATOR);
    if added == 0 {
      assert gases + entry == entry;
    }
  }

  /**
   * The gas-summary loop of the constructor, over its locals `gases` and
   * `added`: walks the cylinders in order and appends the gas text of each
   * used one unless it is empty or already occurs in the text built so far,
   * with " / " before every entry but the first.
   */
  method CollectGases(f: Formatters, d: Dive) returns (gases: string)
    requires HasFixedArrays(d)
    ensures gases == GasSummary(f, d)
  {
    var added := 0;
    gases := "";
    ghost var kept: seq<string> := [];
    for i := 0 to MAX_CYLINDERS
      invariant kept == Deduplicated(UsedGasEntries(f, d, i))
      invariant gases == Join(kept, GAS_SEPARATOR) && added == |kept|
    {
      var gasEntry := FromCString(d.cylinder[i].cylType.description);
      gasEntry := gasEntry + (if gasEntry != "" then " " else "") + f.gasName(d.cylinder[i].gasmix);
      UsedGasEntriesStep(f, d, i, gasEntry);
      if !f.cylinderUsed(d, i) {
        continue;
      }
      if gasEntry != "" && IndexOf(gases, gasEntry) == -1 {
        GasAppend(kept, gases, added, gasEntry);
        if added > 0 {
          gases := gases + GAS_SEPARATOR;
        }
        gases := gases + gasEntry;
        added := added + 1;
        kept := kept + [gasEntry];
      }
    }
  }

  /** The cylinder-list fill of the constructor: one formatted text per cylinder slot, in order. */
  method CylinderTexts(f: Formatters, d: Dive) returns (list: seq<string>)
    requires HasFixedArrays(d)
    ensures |list| == MAX_CYLINDERS
    ensures forall i :: 0 <= i < MAX_CYLINDERS ==> list[i] == FormattedCylinder(f, d, i)
  {
    list := [];
    for i := 0 to MAX_CYLINDERS
      invariant |list| == i
      invariant forall j :: 0 <= j < i ==> list[j] == FormattedCylinder(f, d, j)
    {
      list := list + [FormattedCylinder(f, d, i)];
    }
  }

  /** The weight-list fill of the constructor: one formatted text per weight-system slot, in order. */
  method WeightTexts(f: Formatters, d: Dive) returns (list: seq<string>)
    requires HasFixedArrays(d)
    ensures |list| == MAX_WEIGHTSYSTEMS
    ensures forall i :: 0 <= i < MAX_WEIGHTSYSTEMS ==> list[i] == FormattedWeight(f, d, i)
  {
    list := [];
    for i := 0 to MAX_WEIGHTSYSTEMS
      invariant |list| == i
      invariant forall j :: 0 <= j < i ==> list[j] == FormattedWeight(f, d, j)
    {
      list := list + [FormattedWeight(f, d, i)];
    }
  }

  /** The display strings of one dive. */
  class DiveObjectHelper {
    var number: int
    var id: int
    var rating: int
    var timestamp: int
    var location: string
    var duration: string
    var depth: string
    var divemaster: string
    var buddy: string
    var airTemp: string
    var waterTemp: string
    var suit: string
    var trip: string
    var maxcns: string
    var otu: string
    var dive: Dive
    var gps: string
    var notes: string
    var tags: string
    var gas: string
    var sac: string
    var cylinders: seq<string>
    var weights: seq<string>
    var date: string
    var time: string

    /**
     * Fills every display string from `d`. Absent texts become the
     * placeholder; empty notes become the placeholder and end the
     * construction, leaving tags, gas, SAC, cylinders, weights, date and
     * time empty.
     */
    constructor (f: Formatters, d: Dive)
      requires HasFixedArrays(d)
      ensures number == d.number && id == d.id && rating == d.rating && timestamp == d.when && dive == d
      ensures location == (TextOrPlaceholder(f.diveLocation(d)))
      ensures duration == f.durationString(d.durationSeconds)
      ensures depth == f.depthString(d.maxDepthMm)
      ensures divemaster == (TextOrPlaceholder(d.divemaster))
      ensures buddy == (TextOrPlaceholder(d.buddy))
      ensures suit == (TextOrPlaceholder(d.suit))
      ensures trip == (TripText(d))
      ensures airTemp == OrPlaceholder(f.temperatureString(d.airTempMkelvin))
      ensures waterTemp == OrPlaceholder(f.temperatureString(d.waterTempMkelvin))
      ensures maxcns == IntToString(d.maxcns) && otu == IntToString(d.otu)
      ensures gps == FromCString(f.diveSiteGps(d.diveSiteUuid))
      ensures |FromCString(d.notes)| == 0 ==>
        && notes == EMPTY_DIVE_STRING
        && tags == "" && gas == "" && sac == ""
        && cylinders == [] && weights == []
        && date == "" && time == ""
      ensures |FromCString(d.notes)| != 0 ==>
        && notes == DisplayNotes(f, d)
        && tags == f.tagString(d.tagList)
        && gas == GasSummary(f, d)
        && sac == (if d.sac != 0 then f.sacString(d.sac) else "")
        && date == f.dateString(d.when) && time == f.timeString(d.when)
      ensures |FromCString(d.notes)| != 0 ==>
        && |cylinders| == MAX_CYLINDERS
        && (forall i :: 0 <= i < MAX_CYLINDERS ==> cylinders[i] == FormattedCylinder(f, d, i))
        && |weights| == MAX_WEIGHTSYSTEMS
        && (forall i :: 0 <= i < MAX_WEIGHTSYSTEMS ==> weights[i] == FormattedWeight(f, d, i))
    {
      // The member-initialiser list.
      number := d.number;
      id := d.id;
      rating := d.rating;
      timestamp := d.when;
      location := TextOrPlaceholder(f.diveLocation(d));
      duration := f.durationString(d.durationSeconds);
      depth := f.depthString(d.maxDepthMm);
      divemaster := TextOrPlaceholder(d.divemaster);
      buddy := TextOrPlaceholder(d.buddy);
      var airTempText := f.temperatureString(d.airTempMkelvin);
      var waterTempText := f.temperatureString(d.waterTempMkelvin);
      suit := TextOrPlaceholder(d.suit);
      trip := TripText(d);
      maxcns := IntToString(d.maxcns);
      otu := IntToString(d.otu);
      dive := d;

      // The constructor body. Fields are written once their final value is
      // known; the early return on empty notes is the `if` below, whose
      // `else` branch holds the rest of the body.
      gps := FromCString(f.diveSiteGps(d.diveSiteUuid));

      if |airTempText| == 0 {
        airTempText := EMPTY_DIVE_STRING;
      }
      if |waterTempText| == 0 {
        waterTempText := EMPTY_DIVE_STRING;
      }
      airTemp, waterTemp := airTempText, waterTempText;

      var notesText := FromCString(d.notes);
      if |notesText| == 0 {
        notes := EMPTY_DIVE_STRING;
        tags, gas, sac, date, time := "", "", "", "", "";
        cylinders, weights := [], [];
      } else {
        if SameString(d.dcModel, PLANNED_DIVE_MODEL) {
          notesText := PlannedNotes(f, notesText);
        } else {
          notesText := ReplaceAll(notesText, "\n", "<br>");
        }
        notes := notesText;

        tags := f.tagString(d.tagList);

        var gases := CollectGases(f, d);
        gas := gases;

        sac := if d.sac != 0 then f.sacString(d.sac) else "";

        var cylinderList := CylinderTexts(f, d);
        cylinders := cylinderList;
        var weightList := WeightTexts(f, d);
        weights := weightList;

        date := f.dateString(d.when);
        time := f.timeString(d.when);
      }
    }

    /** The weight-system text at `idx`, or the placeholder for an index outside the list. */
    function Weight(idx: int): (r: string)
      reads this
      ensures 0 <= idx < |weights| ==> r == weights[idx]
      ensures idx < 0 || idx >= |weights| ==> r == EMPTY_DIVE_STRING
    {
      if idx < 0 || idx > |weights| - 1 then EMPTY_DIVE_STRING else weights[idx]
    }

    /** The cylinder text at `idx`, or the placeholder for an index outside the list. */
    function Cylinder(idx: int): (r: string)
      reads this
      ensures 0 <= idx < |cylinders| ==> r == cylinders[idx]
      ensures idx < 0 || idx >= |cylinders| ==> r == EMPTY_DIVE_STRING
    {
      if idx < 0 || idx > |cylinders| - 1 then EMPTY_DIVE_STRING else cylinders[idx]
    }
  }
}
