/** ASCII lower-casing, the part of `String.prototype.toLowerCase` the clip names need. */
module Ascii {

  predicate IsUpper(c: char) {
    'A' <= c <= 'Z'
  }

  /** Maps an upper-case ASCII letter to its lower-case form; every other character is kept. */
  function LowerChar(c: char): (d: char)
    ensures !IsUpper(d)
    ensures IsUpper(c) ==> d as int == c as int + 32 && 'a' <= d <= 'z'
    ensures !IsUpper(c) ==> d == c
  {
    if IsUpper(c) then (c as int + 32) as char else c
  }

  /** The string lowered character by character. */
  function ToLower(s: string): (r: string)
    ensures |r| == |s|
    ensures forall i :: 0 <= i < |s| ==> r[i] == LowerChar(s[i])
  {
    if s == [] then [] else [LowerChar(s[0])] + ToLower(s[1..])
  }

  predicate NoUpper(s: string) {
    forall i :: 0 <= i < |s| ==> !IsUpper(s[i])
  }

  /** A lowered string has no upper-case letter, and lowering it again changes nothing. */
  lemma ToLowerIdempotent(s: string)
    ensures NoUpper(ToLower(s))
    ensures ToLower(ToLower(s)) == ToLower(s)
  {
    var r := ToLower(s);
    var rr := ToLower(r);
    assert forall i :: 0 <= i < |r| ==> rr[i] == r[i];
  }

  /** Lowering leaves a string alone exactly when it has no upper-case letter. */
  lemma ToLowerFixedPoint(s: string)
    ensures ToLower(s) == s <==> NoUpper(s)
  {
    if NoUpper(s) {
      var r := ToLower(s);
      assert forall i :: 0 <= i < |s| ==> r[i] == s[i];
    } else {
      var i :| 0 <= i < |s| && IsUpper(s[i]);
      assert ToLower(s)[i] != s[i];
    }
  }

  /** Clip names as an exporter writes them map to the registry keys the page asks for. */
  lemma ExampleClipNames()
    ensures ToLower("Idle") == "idle"
    ensures ToLower("WALK") == "walk"
    ensures ToLower("Phone") == "phone"
  {
    assert ToLower("Idle") == [LowerChar('I')] + ToLower("dle");
  }
}
