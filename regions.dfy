/** The sidebar's region choice: the label picked from `RegionOptions` is
    turned into the AWS region code at the same position of `RegionCodes`. */
module Regions {
  import opened Wrappers

  const RegionOptions: seq<string> := ["US East (N. Virginia)", "Asia Pacific (Mumbai)", "EU (Ireland)"]
  const RegionCodes: seq<string> := ["us-east-1", "ap-south-1", "eu-west-1"]

  /** `s.index(x)`: the position of the first occurrence of `x`, or None
      where Python raises ValueError. */
  function IndexOf(s: seq<string>, x: string): (r: Option<nat>)
    ensures r.None? <==> x !in s
    ensures r.Some? ==> r.value < |s| && s[r.value] == x
    ensures r.Some? ==> forall j :: 0 <= j < r.value ==> s[j] != x
  {
    if s == [] then None
    else if s[0] == x then Some(0)
    else
      var r := IndexOf(s[1..], x);
      if r.None? then None else Some(r.value + 1)
  }

  /** `region_codes[region_options.index(region)]`. An option that is not listed
      has no code (the source would raise ValueError; the select box
      never offers such a label). */
  function RegionCode(option: string): (r: Option<string>)
    ensures r.Some? <==> option in RegionOptions
    ensures r.Some? ==> r.value in RegionCodes
  {
    match IndexOf(RegionOptions, option)
    case None => None
    case Some(i) => Some(RegionCodes[i])
  }

  /** The labels are pairwise distinct, so the lookup is index-aligned: the
      label at position i yields the code at position i. */
  lemma RegionLookupAligned(i: nat)
    requires i < |RegionOptions|
    ensures RegionCode(RegionOptions[i]) == Some(RegionCodes[i])
  {
  }

  /** The three labels and the codes they select, written out. */
  lemma RegionCodesListed()
    ensures RegionCode("US East (N. Virginia)") == Some("us-east-1")
    ensures RegionCode("Asia Pacific (Mumbai)") == Some("ap-south-1")
    ensures RegionCode("EU (Ireland)") == Some("eu-west-1")
  {
  }
}
