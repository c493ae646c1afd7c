/** The vehicle names of the web API: the English names the front end
    sends, the Korean names manuals are kept under, and the file names
    manuals are saved as and recognised by. */
module Vehicles {
  import opened Text
  import opened Optional
  import opened Lookup

  /** Front-end name and backend name of each supported vehicle, in order. */
  const VehicleMapping: seq<(string, string)> := [
    ("GRANDEUR", "그랜저"), ("SANTAFE", "싼타페"), ("SONATA", "쏘나타"),
    ("AVANTE", "아반떼"), ("KONA", "코나"), ("TUCSON", "투싼"), ("PALISADE", "펠리세이드")
  ]

  const SupportedVehicles: seq<string> := ["그랜저", "싼타페", "쏘나타", "아반떼", "코나", "투싼", "펠리세이드"]

  /** The English spellings a file name may use for each supported vehicle. */
  const EnglishNames: seq<seq<string>> := [
    ["grandeur", "granzer"], ["santafe", "santa"], ["sonata"],
    ["avante", "elantra"], ["kona"], ["tucson"], ["palisade"]
  ]

  /** `list(VEHICLE_MAPPING.keys())`. */
  function FrontendVehicles(): (r: seq<string>)
    ensures |r| == |VehicleMapping|
    ensures forall i :: 0 <= i < |r| ==> r[i] == VehicleMapping[i].0
  {
    seq(|VehicleMapping|, i requires 0 <= i < |VehicleMapping| => VehicleMapping[i].0)
  }

  /** `{v: k for k, v in table}`. */
  function Reversed(table: seq<(string, string)>): (r: seq<(string, string)>)
    ensures |r| == |table|
    ensures forall i :: 0 <= i < |r| ==> r[i] == (table[i].1, table[i].0)
  {
    seq(|table|, i requires 0 <= i < |table| => (table[i].1, table[i].0))
  }

  /** No key occurs in two rows. */
  predicate DistinctKeys(table: seq<(string, string)>) {
    forall i, j :: 0 <= i < j < |table| ==> table[i].0 != table[j].0
  }

  /** `dict(table).get(key, key)`: the value of the row with that key, or
      the key itself when no row has it. */
  function Get(table: seq<(string, string)>, key: string): (r: string)
    ensures (forall i :: 0 <= i < |table| ==> table[i].0 != key) ==> r == key
    decreases |table|
  {
    if |table| == 0 then key
    else if table[0].0 == key then table[0].1
    else Get(table[1..], key)
  }

  /** With distinct keys, a key finds its own row. */
  lemma {:induction false} GetRow(table: seq<(string, string)>, i: nat)
    requires i < |table| && DistinctKeys(table)
    ensures Get(table, table[i].0) == table[i].1
    decreases i
  {
    if i > 0 {
      assert table[0].0 != table[i].0;
      assert DistinctKeys(table[1..]) by {
        forall a, b | 0 <= a < b < |table[1..]| ensures table[1..][a].0 != table[1..][b].0 {
          assert table[1..][a] == table[a + 1] && table[1..][b] == table[b + 1];
        }
      }
      GetRow(table[1..], i - 1);
    }
  }

  /** `map_vehicle_to_backend`. */
  function ToBackend(vehicle: string): string {
    Get(VehicleMapping, vehicle)
  }

  /** `map_vehicle_to_frontend`. */
  function ToFrontend(vehicle: string): string {
    Get(Reversed(VehicleMapping), vehicle)
  }

  lemma MappingDistinct()
    ensures DistinctKeys(VehicleMapping)
    ensures DistinctKeys(Reversed(VehicleMapping))
  {
  }

  /** Both maps are bijections between the front-end list and the supported
      list, row by row, and each undoes the other. */
  lemma MappingRoundTrip(i: nat)
    requires i < |VehicleMapping|
    ensures ToBackend(FrontendVehicles()[i]) == SupportedVehicles[i]
    ensures ToFrontend(SupportedVehicles[i]) == FrontendVehicles()[i]
    ensures ToFrontend(ToBackend(FrontendVehicles()[i])) == FrontendVehicles()[i]
    ensures ToBackend(ToFrontend(SupportedVehicles[i])) == SupportedVehicles[i]
  {
    MappingDistinct();
    GetRow(VehicleMapping, i);
    GetRow(Reversed(VehicleMapping), i);
  }

  /** A name that is neither a front-end nor a backend name passes through
      both maps unchanged. */
  lemma UnknownPassesThrough(vehicle: string)
    requires forall i :: 0 <= i < |VehicleMapping| ==> vehicle != VehicleMapping[i].0 && vehicle != VehicleMapping[i].1
    ensures ToBackend(vehicle) == vehicle
    ensures ToFrontend(vehicle) == vehicle
    ensures ToFrontend(ToBackend(vehicle)) == vehicle
  {
  }

  // ---------------------------------------------------------------------------
  // File names

  /** Each supported vehicle with the fragments that name it in a file
      name: its Korean name first, then its English spellings. */
  function FileNameAliases(): (r: seq<(string, seq<string>)>)
    ensures |r| == |SupportedVehicles|
    ensures forall i :: 0 <= i < |r| ==> r[i] == (SupportedVehicles[i], [SupportedVehicles[i]] + EnglishNames[i])
  {
    seq(|SupportedVehicles|, i requires 0 <= i < |SupportedVehicles| => (SupportedVehicles[i], [SupportedVehicles[i]] + EnglishNames[i]))
  }

  function NameHit(fileName: string): string -> bool {
    (w: string) => Contains(Lower(fileName), w)
  }

  /** `extract_vehicle_name`: the first supported vehicle whose Korean name
      or English spelling occurs in the lower-cased file name. */
  function ExtractVehicleName(fileName: string): (r: Option<string>)
    ensures r.None? <==> forall i :: 0 <= i < |FileNameAliases()| ==> !AnyHit(FileNameAliases()[i].1, NameHit(fileName))
    ensures r.Some? ==> r.value in SupportedVehicles
    ensures r.Some? ==> exists i :: 0 <= i < |SupportedVehicles| && r.value == SupportedVehicles[i]
                          && AnyHit(FileNameAliases()[i].1, NameHit(fileName))
                          && forall j :: 0 <= j < i ==> !AnyHit(FileNameAliases()[j].1, NameHit(fileName))
  {
    FirstEntry(FileNameAliases(), NameHit(fileName))
  }

  /** `s.replace(a, b)` for single characters. */
  function ReplaceChar(s: string, a: char, b: char): (r: string)
    ensures |r| == |s|
    ensures forall i :: 0 <= i < |s| ==> r[i] == (if s[i] == a then b else s[i])
  {
    seq(|s|, i requires 0 <= i < |s| => if s[i] == a then b else s[i])
  }

  const ManualSuffix: string := "_manual.json"

  /** `generate_vehicle_filename`. */
  function GenerateFileName(vehicle: string): (r: string)
    ensures |r| == |vehicle| + |ManualSuffix| && IsSuffix(ManualSuffix, r)
    ensures forall i :: 0 <= i < |vehicle| ==> r[i] == (if vehicle[i] == ' ' then '_' else vehicle[i])
    ensures ' ' !in r[..|r| - |ManualSuffix|]
  {
    var name := ReplaceChar(vehicle, ' ', '_');
    assert (name + ManualSuffix)[..|name|] == name;
    name + ManualSuffix
  }

  /** `Path(name).stem`: the name without its last suffix, where a suffix
      starts at a '.' that is neither the first nor the last character. */
  function Stem(name: string): (r: string)
    ensures IsPrefix(r, name)
    ensures r != name ==> 0 < |r| < |name| - 1 && name[|r|] == '.' && '.' !in name[|r| + 1..]
    ensures r == name <==> forall i :: 0 < i < |name| - 1 && name[i] == '.' ==> name[|name| - 1] == '.'
  {
    var i := LastIndex(name, '.');
    if 0 < i < |name| - 1 then name[..i] else name
  }

  /** A generated file name has the stem "<name>_manual". */
  lemma StemOfGenerated(vehicle: string)
    requires '.' !in vehicle && ' ' !in vehicle
    ensures Stem(GenerateFileName(vehicle)) == vehicle + "_manual"
  {
    var name := GenerateFileName(vehicle);
    assert ReplaceChar(vehicle, ' ', '_') == vehicle;
    assert name == vehicle + ManualSuffix;
    var d := |vehicle| + 7;
    assert name[d] == '.';
    forall k | 0 <= k < |name| && k != d ensures name[k] != '.' {
      if k < |vehicle| {
        assert name[k] == vehicle[k];
      }
    }
    assert name[..d] == vehicle + "_manual";
  }

  /** Lower-casing leaves a stem of Korean letters and "_manual" alone. */
  lemma StemLower(vehicle: string)
    requires NoAsciiUpper(vehicle)
    ensures Lower(vehicle + "_manual") == vehicle + "_manual"
  {
    LowerIdentity(vehicle + "_manual");
  }

  /** For each fragment of the alias table, the position of a character
      that occurs in no other vehicle's stem. */
  const MarkIndex: seq<seq<nat>> := [[0, 0, 0], [2, 0, 0], [0, 0], [0, 1, 0], [0, 0], [0, 0], [0, 0]]

  /** A fragment of another vehicle does not occur in this vehicle's stem. */
  lemma OtherAliasAbsent(i: nat, j: nat, k: nat)
    requires i < |SupportedVehicles| && j < i && k < |FileNameAliases()[j].1|
    ensures !NameHit(SupportedVehicles[i] + "_manual")(FileNameAliases()[j].1[k])
  {
    var stem := SupportedVehicles[i] + "_manual";
    var w := FileNameAliases()[j].1[k];
    var m := MarkIndex[j][k];
    assert m < |w| && w[m] !in stem;
    StemLower(SupportedVehicles[i]);
    MissingChar(stem, w, w[m]);
  }

  /** Generating a file name and recognising it again gives back the
      vehicle: a saved manual is reloaded under its own vehicle. */
  lemma FileNameRoundTrip(i: nat)
    requires i < |SupportedVehicles|
    ensures ExtractVehicleName(Stem(GenerateFileName(SupportedVehicles[i]))) == Some(SupportedVehicles[i])
  {
    var v := SupportedVehicles[i];
    var stem := v + "_manual";
    assert '.' !in v && ' ' !in v && NoAsciiUpper(v);
    StemOfGenerated(v);
    StemLower(v);
    var table := FileNameAliases();
    ContainsPrefix(stem, v);
    assert table[i].1[0] == v;
    assert AnyHit(table[i].1, NameHit(stem));
    forall j | 0 <= j < i
      ensures !AnyHit(table[j].1, NameHit(stem))
    {
      forall k | 0 <= k < |table[j].1| ensures !NameHit(stem)(table[j].1[k]) {
        OtherAliasAbsent(i, j, k);
      }
    }
    FirstEntryAt(table, NameHit(stem), i);
  }
}
