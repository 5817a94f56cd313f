/** Program to campus inference: `PROGRAM_LOCATION_MAP`,
    `infer_campuses_from_text` and the rendering of its result into the
    prompt (systemprompt.py:12-23, 133-139, 174). */
module Campuses {
  import opened Text

  datatype Campus = NY | NJ

  /** The campus code stored in the map. */
  function CampusCode(c: Campus): string {
    match c
    case NY => "ny"
    case NJ => "nj"
  }

  /** `PROGRAM_LOCATION_MAP`, in its written order. */
  const ProgramLocationMap: seq<(string, seq<Campus>)> := [
    ("esthetics", [NY]), ("esthetic", [NY]), ("aesthetics", [NY]), ("aesthetic", [NY]),
    ("nails", [NY]), ("nail", [NY]), ("waxing", [NY]), ("wax", [NY]),
    ("makeup", [NY]), ("cidesco", [NY]),
    ("skin care", [NJ]), ("skincare", [NJ]),
    ("cosmetology", [NJ]), ("hair", [NJ]), ("hairstyling", [NJ]),
    ("manicure", [NJ]), ("barbering", [NJ]), ("barber", [NJ]),
    ("teacher training", [NJ]), ("teaching training", [NJ]), ("instructor", [NJ])]

  /** The campuses of `entries` whose key occurs in `t`. */
  function CampusesFor(entries: seq<(string, seq<Campus>)>, t: string): (r: set<Campus>)
    ensures forall c :: c in r <==>
      exists k :: 0 <= k < |entries| && Occurs(entries[k].0, t) && c in entries[k].1
  {
    if entries == [] then {}
    else
      var rest := CampusesFor(entries[1..], t);
      assert forall k :: 1 <= k < |entries| ==> entries[1..][k - 1] == entries[k];
      assert forall c :: c in rest ==>
        exists k :: 0 <= k < |entries| && Occurs(entries[k].0, t) && c in entries[k].1 by {
        forall c | c in rest
          ensures exists k :: 0 <= k < |entries| && Occurs(entries[k].0, t) && c in entries[k].1
        {
          var k :| 0 <= k < |entries[1..]| && Occurs(entries[1..][k].0, t) && c in entries[1..][k].1;
          assert entries[k + 1] == entries[1..][k];
        }
      }
      (if Contains(entries[0].0, t) then set c | c in entries[0].1 else {}) + rest
  }

  /** Some program named in `t` is taught at campus `c`. */
  ghost predicate Offered(c: Campus, t: string) {
    exists k :: 0 <= k < |ProgramLocationMap| && Occurs(ProgramLocationMap[k].0, t) && c in ProgramLocationMap[k].1
  }

  /** `infer_campuses_from_text(text)`: the union of the campus lists of every
      map key found in the lowercased text. */
  function InferCampuses(text: string): (r: set<Campus>)
    ensures forall c :: c in r <==> Offered(c, Lower(text))
  {
    CampusesFor(ProgramLocationMap, Lower(text))
  }

  /** A program keyword in the text, in any letter case, puts its campus in
      the result. */
  lemma KeywordSelectsCampus(text: string, k: nat)
    requires k < |ProgramLocationMap| && Occurs(ProgramLocationMap[k].0, Lower(text))
    ensures forall c :: c in ProgramLocationMap[k].1 ==> c in InferCampuses(text)
  {
  }

  /** `pat` is not in `s` when, wherever it could start, its `d`-th
      character differs from the text at that place. */
  lemma AbsentBy(pat: string, s: string, d: nat)
    requires d < |pat|
    requires forall i :: d <= i < |s| && i - d + |pat| <= |s| ==> s[i] != pat[d]
    ensures !Occurs(pat, s)
  {
    forall j | 0 <= j && j + |pat| <= |s|
      ensures !OccursAt(pat, s, j)
    {
      assert s[j..j + |pat|][d] == s[j + d] != pat[d];
    }
  }

  /** No New York program name occurs in "barbering". */
  lemma NoNewYorkKeyInBarbering(k: nat)
    requires k < |ProgramLocationMap| && NY in ProgramLocationMap[k].1
    ensures !Occurs(ProgramLocationMap[k].0, "barbering")
  {
    var t := "barbering";
    if k == 0 { AbsentBy("esthetics", t, 0); }
    else if k == 1 { AbsentBy("esthetic", t, 0); }
    else if k == 2 { AbsentBy("aesthetics", t, 0); }
    else if k == 3 { AbsentBy("aesthetic", t, 0); }
    else if k == 4 { AbsentBy("nails", t, 0); }
    else if k == 5 { AbsentBy("nail", t, 0); }
    else if k == 6 { AbsentBy("waxing", t, 0); }
    else if k == 7 { AbsentBy("wax", t, 0); }
    else if k == 8 { AbsentBy("makeup", t, 0); }
    else { AbsentBy("cidesco", t, 0); }
  }

  /** The campus that is not `c`. */
  function Other(c: Campus): Campus {
    match c
    case NY => NJ
    case NJ => NY
  }

  /** A set of campuses holding `c` but not the other one is `{c}`. */
  lemma OnlyCampus(r: set<Campus>, c: Campus)
    requires c in r && Other(c) !in r
    ensures r == {c}
  {
    forall d
      ensures d in r <==> d == c
    {
      if d != c {
        assert d == Other(c);
      }
    }
  }

  lemma BarberingNamesNewJersey(text: string)
    requires Lower(text) == "barbering"
    ensures NJ in InferCampuses(text)
  {
    assert ProgramLocationMap[16] == ("barbering", [NJ]);
    OccursSelf(Lower(text));
    KeywordSelectsCampus(text, 16);
  }

  lemma BarberingSkipsNewYork(text: string)
    requires Lower(text) == "barbering"
    ensures NY !in InferCampuses(text)
  {
    forall k | 0 <= k < |ProgramLocationMap| && NY in ProgramLocationMap[k].1
      ensures !Occurs(ProgramLocationMap[k].0, Lower(text))
    {
      NoNewYorkKeyInBarbering(k);
    }
  }

  /** "barbering", in any letter case, is taught only at the New Jersey
      campus. */
  lemma BarberingIsNewJersey(text: string)
    requires Lower(text) == "barbering"
    ensures InferCampuses(text) == {NJ}
  {
    BarberingNamesNewJersey(text);
    BarberingSkipsNewYork(text);
    OnlyCampus(InferCampuses(text), NJ);
  }

  /** No New Jersey program name occurs in "esthetics". */
  lemma NoNewJerseyKeyInEsthetics(k: nat)
    requires k < |ProgramLocationMap| && NJ in ProgramLocationMap[k].1
    ensures !Occurs(ProgramLocationMap[k].0, "esthetics")
  {
    var t := "esthetics";
    if k == 10 { AbsentBy("skin care", t, 0); }
    else if k == 11 { AbsentBy("skincare", t, 1); }
    else if k == 12 { AbsentBy("cosmetology", t, 0); }
    else if k == 13 { AbsentBy("hair", t, 1); }
    else if k == 14 { AbsentBy("hairstyling", t, 0); }
    else if k == 15 { AbsentBy("manicure", t, 0); }
    else if k == 16 { AbsentBy("barbering", t, 0); }
    else if k == 17 { AbsentBy("barber", t, 0); }
    else if k == 18 { AbsentBy("teacher training", t, 0); }
    else if k == 19 { AbsentBy("teaching training", t, 0); }
    else { AbsentBy("instructor", t, 0); }
  }

  lemma EstheticsNamesNewYork(text: string)
    requires Lower(text) == "esthetics"
    ensures NY in InferCampuses(text)
  {
    assert ProgramLocationMap[0] == ("esthetics", [NY]);
    OccursSelf(Lower(text));
    KeywordSelectsCampus(text, 0);
  }

  lemma EstheticsSkipsNewJersey(text: string)
    requires Lower(text) == "esthetics"
    ensures NJ !in InferCampuses(text)
  {
    forall k | 0 <= k < |ProgramLocationMap| && NJ in ProgramLocationMap[k].1
      ensures !Occurs(ProgramLocationMap[k].0, Lower(text))
    {
      NoNewJerseyKeyInEsthetics(k);
    }
  }

  /** "esthetics", in any letter case, is taught only at the New York
      campus. */
  lemma EstheticsIsNewYork(text: string)
    requires Lower(text) == "esthetics"
    ensures InferCampuses(text) == {NY}
  {
    EstheticsNamesNewYork(text);
    EstheticsSkipsNewJersey(text);
    OnlyCampus(InferCampuses(text), NY);
  }

  // ---------------------------------------------------------------------
  // `",".join(sorted(campuses)) or "unknown"`
  // ---------------------------------------------------------------------

  /** The codes of `s` in ascending order. */
  function SortedCodes(s: set<Campus>): (r: seq<string>)
    ensures forall c :: c in s <==> CampusCode(c) in r
    ensures forall a, b :: 0 <= a < b < |r| ==> LexLess(r[a], r[b])
    ensures |r| == |s|
  {
    assert s == {} || s == {NJ} || s == {NY} || s == {NJ, NY} by {
      assert forall c :: c in s ==> c == NJ || c == NY;
    }
    (if NJ in s then ["nj"] else []) + (if NY in s then ["ny"] else [])
  }

  /** The text of `<campus_policy_inferred_from_query>`. */
  function RenderCampuses(s: set<Campus>): (r: string)
    ensures r == "unknown" <==> s == {}
    ensures s != {} ==> r == JoinWith(",", SortedCodes(s))
  {
    var joined := JoinWith(",", SortedCodes(s));
    if joined == "" then "unknown" else joined
  }

  /** The rendering loses nothing: two sets rendered alike are equal. */
  lemma RenderCampusesInjective(a: set<Campus>, b: set<Campus>)
    requires RenderCampuses(a) == RenderCampuses(b)
    ensures a == b
  {
    assert forall c :: c in a ==> c == NJ || c == NY;
    assert forall c :: c in b ==> c == NJ || c == NY;
    assert a == {} || a == {NJ} || a == {NY} || a == {NJ, NY};
    assert b == {} || b == {NJ} || b == {NY} || b == {NJ, NY};
  }

  /** Both campuses render as "nj,ny". */
  lemma BothCampusesRendered()
    ensures RenderCampuses({NY, NJ}) == "nj,ny"
  {
    assert SortedCodes({NY, NJ}) == ["nj", "ny"];
  }
}
