/** The static section-id to animation-name lookup of the page's intersection observer. */
module Sections {
  import opened Wrappers

  /** One delivered observer entry: the observed element's id and whether it now intersects the viewport. */
  datatype Entry = Entry(id: string, isIntersecting: bool)

  /** The animation names the page requests. */
  const AnimationNames: set<string> := {"idle", "hello", "break", "pose", "walk", "thanks", "phone"}

  /** The `switch (sectionId)` of the observer callback; `None` is the `default` case, which requests nothing. */
  function SectionToAnimation(id: string): Option<string> {
    match id
    case "hero" => Some("idle")
    case "hello" => Some("hello")
    case "giveaway" => Some("break")
    case "capabilities" => Some("pose")
    case "store" => Some("walk")
    case "thanks" => Some("thanks")
    case "contactForm" => Some("phone")
    case _ => None
  }

  /** The same lookup written as a table. */
  const SectionTable: map<string, string> := map[
    "hero" := "idle", "hello" := "hello", "giveaway" := "break", "capabilities" := "pose",
    "store" := "walk", "thanks" := "thanks", "contactForm" := "phone"]

  /** The switch agrees with the table: exactly the seven ids are mapped, each to its table entry. */
  lemma SwitchMatchesTable(id: string)
    ensures SectionToAnimation(id).Some? <==> id in SectionTable
    ensures id in SectionTable ==> SectionToAnimation(id) == Some(SectionTable[id])
  {
  }

  /** Every mapped name is one of the seven animation names, and distinct sections request distinct animations. */
  lemma SectionImage(a: string, b: string)
    ensures SectionToAnimation(a).Some? ==> SectionToAnimation(a).value in AnimationNames
    ensures SectionToAnimation(a).Some? && SectionToAnimation(a) == SectionToAnimation(b) ==> a == b
  {
  }

  /** The names requested, in delivery order, by a batch of entries: intersecting entries with a mapped id only. */
  function MappedNames(entries: seq<Entry>): (names: seq<string>)
    ensures |names| <= |entries|
    ensures forall n :: n in names ==> n in AnimationNames
    decreases |entries|
  {
    if entries == [] then []
    else
      var e := entries[|entries| - 1];
      var prefix := MappedNames(entries[..|entries| - 1]);
      if e.isIntersecting && SectionToAnimation(e.id).Some? then prefix + [SectionToAnimation(e.id).value] else prefix
  }

  /** A name is requested by a batch exactly when some intersecting entry of the batch maps to it. */
  lemma {:induction false} MappedNamesMembers(entries: seq<Entry>, n: string)
    ensures n in MappedNames(entries) <==>
      exists i :: 0 <= i < |entries| && entries[i].isIntersecting && SectionToAnimation(entries[i].id) == Some(n)
    decreases |entries|
  {
    if entries != [] {
      var k := |entries| - 1;
      var init := entries[..k];
      MappedNamesMembers(init, n);
      assert forall i :: 0 <= i < k ==> init[i] == entries[i];
      if exists i :: 0 <= i < |entries| && entries[i].isIntersecting && SectionToAnimation(entries[i].id) == Some(n) {
        var i :| 0 <= i < |entries| && entries[i].isIntersecting && SectionToAnimation(entries[i].id) == Some(n);
        if i < k {
          assert init[i] == entries[i];
        }
      }
    }
  }

  /** An unmapped id, or an entry that is not intersecting, requests nothing. */
  lemma SilentEntry(e: Entry)
    ensures !e.isIntersecting || e.id !in SectionTable ==> MappedNames([e]) == []
    ensures MappedNames([Entry("footer", true)]) == []
  {
    assert [e][..0] == [];
    var f := [Entry("footer", true)];
    assert f[..0] == [];
  }
}
