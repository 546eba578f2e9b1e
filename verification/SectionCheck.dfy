/** The ordered presence check of packs/quant/check/check_quant.py. */
module SectionCheck {
  import opened Text

  /** `at` places every marker in the text, in order and without overlap. */
  ghost predicate Places(text: string, markers: seq<string>, from: nat, at: seq<nat>) {
    && |at| == |markers|
    && (forall k :: 0 <= k < |at| ==> from <= at[k] && OccursAt(text, markers[k], at[k]))
    && (forall j, k :: 0 <= j < k < |at| ==> at[j] + |markers[j]| <= at[k])
  }

  ghost predicate Placeable(text: string, markers: seq<string>, from: nat) {
    exists at :: Places(text, markers, from, at)
  }

  function Marker(slug: string): string {
    "hpc-audit-section: " + slug
  }

  function Markers(slugs: seq<string>): seq<string> {
    seq(|slugs|, k requires 0 <= k < |slugs| => Marker(slugs[k]))
  }

  /** A text that lists its sections line by line, in order, is accepted. */
  function Listing(slugs: seq<string>): string {
    if slugs == [] then "" else ("hpc-audit-section: " + slugs[0] + "\n") + Listing(slugs[1..])
  }

  lemma {:induction false} ListingIsPlaceable(before: string, slugs: seq<string>)
    ensures Placeable(before + Listing(slugs), Markers(slugs), |before|)
    decreases |slugs|
  {
    var text := before + Listing(slugs);
    if slugs == [] {
      assert Places(text, [], |before|, []);
    } else {
      var line := "hpc-audit-section: " + slugs[0];
      var longer := before + (line + "\n");
      assert text == longer + Listing(slugs[1..]);
      ListingIsPlaceable(longer, slugs[1..]);
      var rest :| Places(text, Markers(slugs[1..]), |longer|, rest);
      assert Markers(slugs)[1..] == Markers(slugs[1..]) && Markers(slugs)[0] == line;
      assert text[|before|..|before| + |line|] == line;
      PlacesLater(text, Markers(slugs[1..]), |longer|, |before| + |line|, rest);
      PrependPlacement(text, Markers(slugs), |before|, |before|, rest);
    }
  }

  lemma PlacesLater(text: string, markers: seq<string>, from: nat, earlier: nat, at: seq<nat>)
    requires Places(text, markers, from, at) && earlier <= from
    ensures Places(text, markers, earlier, at)
  {
  }

  /** Exchange step: any placement survives moving its first marker to the leftmost occurrence. */
  lemma LeftmostLosesNothing(text: string, markers: seq<string>, from: nat, at: seq<nat>)
    requires markers != [] && Places(text, markers, from, at)
    ensures Find(text, markers[0], from).Some?
    ensures Places(text, markers[1..], Find(text, markers[0], from).value + |markers[0]|, at[1..])
  {
    assert OccursAt(text, markers[0], at[0]);
  }

  lemma FirstMarkerFound(text: string, markers: seq<string>, from: nat)
    requires markers != []
    ensures Placeable(text, markers, from) ==> Find(text, markers[0], from).Some?
  {
    if at :| Places(text, markers, from, at) {
      LeftmostLosesNothing(text, markers, from, at);
    }
  }

  lemma PrependPlacement(text: string, markers: seq<string>, from: nat, i: nat, rest: seq<nat>)
    requires markers != [] && from <= i && OccursAt(text, markers[0], i)
    requires Places(text, markers[1..], i + |markers[0]|, rest)
    ensures Places(text, markers, from, [i] + rest)
  {
    var at := [i] + rest;
    forall k | 0 <= k < |at| ensures from <= at[k] && OccursAt(text, markers[k], at[k]) {
      if k > 0 { assert markers[k] == markers[1..][k - 1] && at[k] == rest[k - 1]; }
    }
    forall j, k | 0 <= j < k < |at| ensures at[j] + |markers[j]| <= at[k] {
      assert at[k] == rest[k - 1] && markers[k] == markers[1..][k - 1];
      if j > 0 { assert markers[j] == markers[1..][j - 1] && at[j] == rest[j - 1]; }
    }
  }

  /** The one-cursor search accepts exactly the texts that hold all markers in order, apart. */
  method CheckSections(text: string, slugs: seq<string>) returns (ok: bool)
    ensures ok <==> Placeable(text, seq(|slugs|, k requires 0 <= k < |slugs| => "hpc-audit-section: " + slugs[k]), 0)
  {
    ghost var ms := Markers(slugs);
    assert ms == seq(|slugs|, k requires 0 <= k < |slugs| => "hpc-audit-section: " + slugs[k]);
    var cursor: nat, k: nat := 0, 0;
    assert ms[0..] == ms;
    while k < |slugs|
      invariant 0 <= k <= |slugs|
      invariant Placeable(text, ms[k..], cursor) <==> Placeable(text, ms, 0)
    {
      var marker := Marker(slugs[k]);
      assert ms[k..][0] == marker && ms[k..][1..] == ms[k + 1..];
      var idx := Find(text, marker, cursor);
      if idx.None? {
        FirstMarkerFound(text, ms[k..], cursor);
        return false;
      }
      StepEquivalence(text, ms[k..], cursor);
      cursor := idx.value + |marker|;
      k := k + 1;
    }
    assert Places(text, ms[k..], cursor, []);
    return true;
  }

  lemma StepEquivalence(text: string, markers: seq<string>, from: nat)
    requires markers != [] && Find(text, markers[0], from).Some?
    ensures Placeable(text, markers, from)
       <==> Placeable(text, markers[1..], Find(text, markers[0], from).value + |markers[0]|)
  {
    var i := Find(text, markers[0], from).value;
    var next := i + |markers[0]|;
    if at :| Places(text, markers, from, at) {
      LeftmostLosesNothing(text, markers, from, at);
      assert Placeable(text, markers[1..], next);
    }
    if rest :| Places(text, markers[1..], next, rest) {
      PrependPlacement(text, markers, from, i, rest);
      assert Placeable(text, markers, from);
    }
  }
}
