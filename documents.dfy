/**
 * Decoded JSON documents, as `response.json()` hands them to the code that
 * inspects an eBay reply. Numbers are modelled as integers only.
 */
module Documents {

  datatype Json =
    | JNull
    | JBool(b: bool)
    | JInt(i: int)
    | JStr(s: string)
    | JArray(items: seq<Json>)
    | JObject(fields: map<string, Json>)

  /** Python's `sub in s` on two strings: `sub` occurs as a contiguous piece of `s`. */
  predicate HasSubstring(s: string, sub: string)
    ensures HasSubstring(s, sub) <==> exists i :: 0 <= i <= |s| - |sub| && sub == s[i..][..|sub|]
  {
    if sub <= s then
      assert sub == s[0..][..|sub|];
      true
    else if |s| == 0 then
      false
    else
      var r := HasSubstring(s[1..], sub);
      assert forall i :: 1 <= i <= |s| - |sub| ==> s[i..] == s[1..][i - 1..];
      r
  }
}
