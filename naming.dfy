/**
 * How the auto-assign button relates a field to a candidate: the field's
 * name loses its prefix, and the first candidate whose name equals what is
 * left is chosen.
 */
module Naming {
  import opened Wrappers

  /**
   * The position of the first `c` in `s`, or -1 when `s` has none, as
   * `string.IndexOf(char)` reports it.
   */
  function IndexOf(s: string, c: char): (r: int)
    ensures -1 <= r < |s|
    ensures r == -1 <==> c !in s
    ensures 0 <= r ==> s[r] == c && c !in s[..r]
  {
    if s == [] then -1
    else if s[0] == c then 0
    else
      var k := IndexOf(s[1..], c);
      assert k >= 0 ==> s[..k + 1] == [s[0]] + s[1..][..k];
      if k == -1 then -1 else k + 1
  }

  /**
   * The field name with everything up to and including its first `_`
   * removed (`m_player` and `_player` both become `player`); a name without
   * `_` is kept whole.
   */
  function CleanPropertyName(name: string): (r: string)
    ensures '_' !in name ==> r == name
    ensures forall k :: 0 <= k < |name| && name[k] == '_' && '_' !in name[..k] ==> r == name[k + 1..]
    ensures |r| <= |name| && r == name[|name| - |r|..]
    ensures '_' in name ==> |r| < |name|
  {
    var i := IndexOf(name, '_');
    if i >= 0 then name[i + 1..] else name
  }

  /** ASCII lower-casing of one character; every other character is kept. */
  function LowerChar(c: char): (r: char)
  {
    if 'A' <= c <= 'Z' then (c as int - 'A' as int + 'a' as int) as char else c
  }

  /** `s` with each character lower-cased by `LowerChar`. */
  function Lower(s: string): (r: string)
  {
    if s == [] then [] else [LowerChar(s[0])] + Lower(s[1..])
  }

  /** The match used for `GameObject` fields: the names are equal, case included. */
  predicate GameObjectNameMatches(objectName: string, cleanedName: string)
  {
    objectName == cleanedName
  }

  /** The match used for `Component` fields: the names are equal once both are lower-cased. */
  predicate ComponentNameMatches(objectName: string, cleanedName: string)
  {
    Lower(objectName) == Lower(cleanedName)
  }

  /** `Lower` keeps the length and lower-cases position by position. */
  lemma {:induction false} LowerAt(s: string)
    ensures |Lower(s)| == |s|
    ensures forall i :: 0 <= i < |s| ==> Lower(s)[i] == LowerChar(s[i])
  {
    if s != [] {
      LowerAt(s[1..]);
      forall i | 1 <= i < |s|
        ensures Lower(s)[i] == LowerChar(s[i])
      {
        assert Lower(s)[i] == Lower(s[1..])[i - 1];
        assert s[1..][i - 1] == s[i];
      }
    }
  }

  /** Two characters lower-case alike exactly when they are equal or are the two cases of one ASCII letter. */
  lemma LowerCharFoldsAsciiCase(a: char, b: char)
    ensures LowerChar(a) == LowerChar(b) <==>
      a == b
      || ('A' <= a <= 'Z' && b as int == a as int + 32)
      || ('A' <= b <= 'Z' && a as int == b as int + 32)
  {
  }

  /**
   * The component match holds exactly when the two names have the same
   * length and agree letter by letter once lower-cased; so names that
   * differ only in ASCII letter case match, and no others do. An exact
   * match is in particular a case-insensitive one.
   */
  lemma ComponentMatchIgnoresCase(objectName: string, cleanedName: string)
    ensures ComponentNameMatches(objectName, cleanedName) <==>
      |objectName| == |cleanedName|
      && forall i :: 0 <= i < |objectName| ==> LowerChar(objectName[i]) == LowerChar(cleanedName[i])
    ensures GameObjectNameMatches(objectName, cleanedName) ==> ComponentNameMatches(objectName, cleanedName)
  {
    LowerAt(objectName);
    LowerAt(cleanedName);
    if |objectName| == |cleanedName|
      && forall i :: 0 <= i < |objectName| ==> LowerChar(objectName[i]) == LowerChar(cleanedName[i])
    {
      assert Lower(objectName) == Lower(cleanedName);
    }
  }

  /**
   * The index of the first element of `s` that satisfies `p`, or `None`,
   * as `List.Find` and `Array.Find` search.
   */
  function FindFirst<T>(s: seq<T>, p: T -> bool): (r: Option<nat>)
    ensures r.Some? ==> r.value < |s| && p(s[r.value]) && forall j :: 0 <= j < r.value ==> !p(s[j])
    ensures r.None? <==> forall j :: 0 <= j < |s| ==> !p(s[j])
  {
    if s == [] then None
    else if p(s[0]) then Some(0)
    else
      match FindFirst(s[1..], p)
      case None => None
      case Some(k) => Some(k + 1)
  }
}
