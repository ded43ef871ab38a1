/**
 * The constants of common/CommonKeys.kt: the predefined header names offered
 * by the header dialog, and the check-interval choices with their inverse.
 */
module CommonKeys {
  import opened Strings
  import opened Headers

  /** `predefinedKeys`. */
  const PredefinedKeys: seq<string> := [
    "Content-Type", "Authorization", "Accept", "User-Agent", "Cache-Control",
    "x-api-key", "wallet-address", "wallet-signature"
  ]

  /** The entries of `intervalOptions` in declaration order: label to minutes. */
  const IntervalEntries: seq<(string, int)> := [
    ("15 minute", 15), ("30 minute", 30), ("1 hour", 60), ("3 hours", 180),
    ("12 hours", 720), ("1 day", 1440), ("1 week", 10080)
  ]

  /** Kotlin's `mapOf(k to v, ...)`: a later entry for the same key wins. */
  function EntriesToMap(entries: seq<(string, int)>): (m: map<string, int>)
    ensures m.Keys == set i | 0 <= i < |entries| :: entries[i].0
  {
    if |entries| == 0 then map[]
    else
      var last := entries[|entries| - 1];
      var m := EntriesToMap(entries[..|entries| - 1]);
      assert forall i :: 0 <= i < |entries| - 1 ==> entries[..|entries| - 1][i] == entries[i];
      m[last.0 := last.1]
  }

  /** `entries.associate { (key, value) -> value to key }`: a later entry wins. */
  function Invert(entries: seq<(string, int)>): (m: map<int, string>)
    ensures m.Keys == set i | 0 <= i < |entries| :: entries[i].1
  {
    if |entries| == 0 then map[]
    else
      var last := entries[|entries| - 1];
      var m := Invert(entries[..|entries| - 1]);
      assert forall i :: 0 <= i < |entries| - 1 ==> entries[..|entries| - 1][i] == entries[i];
      m[last.1 := last.0]
  }

  /** `intervalOptions`. */
  function IntervalOptions(): map<string, int> {
    EntriesToMap(IntervalEntries)
  }

  /** `intervalOptionsInvert`. */
  function IntervalOptionsInvert(): map<int, string> {
    Invert(IntervalEntries)
  }

  /** The label the service list shows: `intervalOptionsInvert[interval].orEmpty()`. */
  function IntervalLabel(minutes: int): string {
    if minutes in IntervalOptionsInvert() then IntervalOptionsInvert()[minutes] else ""
  }

  predicate DistinctLabels(entries: seq<(string, int)>) {
    forall i, j :: 0 <= i < j < |entries| ==> entries[i].0 != entries[j].0
  }

  predicate DistinctMinutes(entries: seq<(string, int)>) {
    forall i, j :: 0 <= i < j < |entries| ==> entries[i].1 != entries[j].1
  }

  /** The last entry is written over the map of the ones before it. */
  lemma MapLastEntry(entries: seq<(string, int)>)
    requires |entries| > 0 && DistinctLabels(entries)
    ensures var n := |entries| - 1;
      && DistinctLabels(entries[..n])
      && entries[n].0 !in EntriesToMap(entries[..n])
      && EntriesToMap(entries) == EntriesToMap(entries[..n])[entries[n].0 := entries[n].1]
  {
    var n := |entries| - 1;
    assert forall i :: 0 <= i < n ==> entries[..n][i] == entries[i];
  }

  /** With distinct labels, the map holds every entry and loses none. */
  lemma {:induction false} MapKeepsEntries(entries: seq<(string, int)>)
    requires DistinctLabels(entries)
    ensures forall i :: 0 <= i < |entries| ==> EntriesToMap(entries)[entries[i].0] == entries[i].1
    ensures |EntriesToMap(entries)| == |entries|
  {
    if |entries| > 0 {
      var n := |entries| - 1;
      var init := entries[..n];
      MapLastEntry(entries);
      MapKeepsEntries(init);
      forall i | 0 <= i < n ensures EntriesToMap(entries)[entries[i].0] == entries[i].1 {
        assert init[i] == entries[i];
        assert entries[i].0 != entries[n].0;
      }
    }
  }

  /** The last entry is written over the inverse of the ones before it. */
  lemma InvertLastEntry(entries: seq<(string, int)>)
    requires |entries| > 0 && DistinctMinutes(entries)
    ensures var n := |entries| - 1;
      && DistinctMinutes(entries[..n])
      && entries[n].1 !in Invert(entries[..n])
      && Invert(entries) == Invert(entries[..n])[entries[n].1 := entries[n].0]
  {
    var n := |entries| - 1;
    assert forall i :: 0 <= i < n ==> entries[..n][i] == entries[i];
  }

  /** With distinct minutes, the inverse holds every entry and loses none. */
  lemma {:induction false} InvertKeepsEntries(entries: seq<(string, int)>)
    requires DistinctMinutes(entries)
    ensures forall i :: 0 <= i < |entries| ==> Invert(entries)[entries[i].1] == entries[i].0
    ensures |Invert(entries)| == |entries|
  {
    if |entries| > 0 {
      var n := |entries| - 1;
      var init := entries[..n];
      InvertLastEntry(entries);
      InvertKeepsEntries(init);
      forall i | 0 <= i < n ensures Invert(entries)[entries[i].1] == entries[i].0 {
        assert init[i] == entries[i];
        assert entries[i].1 != entries[n].1;
      }
    }
  }

  /** Every value of the map comes from some entry. */
  lemma MapValuesFromEntries(entries: seq<(string, int)>)
    ensures forall v :: v in EntriesToMap(entries).Values ==>
      exists i :: 0 <= i < |entries| && entries[i].1 == v
    decreases |entries|
  {
    if |entries| > 0 {
      var n := |entries| - 1;
      var init := entries[..n];
      MapValuesFromEntries(init);
      assert forall i :: 0 <= i < n ==> init[i] == entries[i];
      forall v | v in EntriesToMap(entries).Values
        ensures exists i :: 0 <= i < |entries| && entries[i].1 == v
      {
        var m := EntriesToMap(init);
        var k :| k in EntriesToMap(entries) && EntriesToMap(entries)[k] == v;
        if k == entries[n].0 {
          assert entries[n].1 == v;
        } else {
          assert m[k] == v && v in m.Values;
        }
      }
    }
  }

  /**
   * Every interval choice is at least 15 minutes, the scheduler's floor, so
   * the floor never changes a chosen interval; each label maps to its own
   * number of minutes.
   */
  lemma IntervalChoices()
    ensures forall i :: 0 <= i < |IntervalEntries| ==>
      IntervalOptions()[IntervalEntries[i].0] == IntervalEntries[i].1
    ensures forall v :: v in IntervalOptions().Values ==> v >= 15
  {
    EntriesDistinct();
    EntriesAtLeastFloor();
    MapKeepsEntries(IntervalEntries);
    MapValuesFromEntries(IntervalEntries);
  }

  lemma EntriesAtLeastFloor()
    ensures forall i :: 0 <= i < |IntervalEntries| ==> IntervalEntries[i].1 >= 15
  {
  }

  /**
   * `intervalOptionsInvert` undoes `intervalOptions` for every label, and has
   * as many entries (7) as there are choices.
   */
  lemma IntervalInverse()
    ensures forall k :: k in IntervalOptions() ==>
      (IntervalOptions()[k] in IntervalOptionsInvert() && IntervalOptionsInvert()[IntervalOptions()[k]] == k)
    ensures forall v :: v in IntervalOptionsInvert() ==>
      (IntervalOptionsInvert()[v] in IntervalOptions() && IntervalOptions()[IntervalOptionsInvert()[v]] == v)
    ensures |IntervalOptions()| == |IntervalOptionsInvert()| == 7
  {
    EntriesDistinct();
    MapKeepsEntries(IntervalEntries);
    InvertKeepsEntries(IntervalEntries);
  }

  lemma EntriesDistinct()
    ensures DistinctLabels(IntervalEntries) && DistinctMinutes(IntervalEntries)
  {
    LabelsDistinct();
    MinutesDistinct();
  }

  lemma LabelsDistinct()
    ensures DistinctLabels(IntervalEntries)
  {
    var labels := ["15 minute", "30 minute", "1 hour", "3 hours", "12 hours", "1 day", "1 week"];
    assert forall i :: 0 <= i < 7 ==> IntervalEntries[i].0 == labels[i];
    assert forall i, j :: 0 <= i < j < 7 ==> labels[i] != labels[j];
  }

  lemma MinutesDistinct()
    ensures DistinctMinutes(IntervalEntries)
  {
  }

  /** A number of minutes that is not a choice shows an empty label, e.g. 45. */
  lemma LabelOfNonChoice(minutes: int)
    requires minutes !in {15, 30, 60, 180, 720, 1440, 10080}
    ensures IntervalLabel(minutes) == ""
    ensures IntervalLabel(45) == ""
  {
  }

  /**
   * The predefined header names are clean, so any headers named from
   * `predefinedKeys`, in any order, repeated or not, with clean values,
   * survive serialising and parsing the header text.
   */
  lemma PredefinedKeysRoundTrip(hs: seq<Header>)
    requires forall i :: 0 <= i < |hs| ==> hs[i].0 in PredefinedKeys && Clean(("", hs[i].1))
    ensures ParseHeaders(Serialize(hs)) == hs
  {
    PredefinedKeysClean();
    forall i | 0 <= i < |hs| ensures Clean(hs[i]) {
      var k :| 0 <= k < |PredefinedKeys| && PredefinedKeys[k] == hs[i].0;
      assert Clean((PredefinedKeys[k], ""));
      assert Clean(("", hs[i].1));
    }
    RoundTrip(hs);
  }

  /** The characters the predefined names are spelled with. */
  predicate IsNameChar(c: char) {
    ('a' <= c <= 'z') || ('A' <= c <= 'Z') || c == '-'
  }

  /** A non-empty name made of letters and '-' is a clean header name. */
  lemma NameClean(k: string)
    requires forall j :: 0 <= j < |k| ==> IsNameChar(k[j])
    ensures Clean((k, ""))
  {
    if |k| > 0 {
      assert IsNameChar(k[0]) && IsNameChar(k[|k| - 1]);
    }
  }

  /** Each predefined name is trimmed and holds neither ',' nor ':'. */
  lemma PredefinedKeysClean()
    ensures forall i :: 0 <= i < |PredefinedKeys| ==> Clean((PredefinedKeys[i], ""))
  {
    forall i | 0 <= i < |PredefinedKeys| ensures Clean((PredefinedKeys[i], "")) {
      NameClean(PredefinedKeys[i]);
    }
  }

  /** No header name is offered twice. */
  lemma PredefinedKeysDistinct()
    ensures forall i, j :: 0 <= i < j < |PredefinedKeys| ==> PredefinedKeys[i] != PredefinedKeys[j]
  {
  }
}
