/** Identifier patterns and request contracts shared by the stores, the gate and the transaction. */
module Contracts {
  import opened Common

  // ----- Identifiers -----

  predicate IsLower(c: char) { 'a' <= c <= 'z' }

  predicate IsAlnum(c: char) { IsLower(c) || 'A' <= c <= 'Z' || '0' <= c <= '9' }

  /** First character alphanumeric, up to 127 more from the alphanumerics and `extra`. */
  predicate Matches(s: string, extra: string) {
    && 1 <= |s| <= 128 && IsAlnum(s[0])
    && forall k :: 1 <= k < |s| ==> IsAlnum(s[k]) || s[k] in extra
  }

  /** Response identifiers and credential selectors. */
  predicate IsResponseId(s: string) { Matches(s, "._:-") }

  predicate IsTenantId(s: string) { Matches(s, "._-") }

  /** Registry identifiers of target models: lower case only. */
  predicate IsTargetId(s: string) {
    Matches(s, "./:_-") && forall k :: 0 <= k < |s| ==> !('A' <= s[k] <= 'Z')
  }

  predicate IsTokenText(s: string, from: nat, to: nat) {
    from <= |s| <= to && forall k :: 0 <= k < |s| ==> IsAlnum(s[k]) || s[k] == '_' || s[k] == '-'
  }

  predicate IsAssetId(s: string) {
    "mb_" <= s && IsTokenText(s[3..], 22, 64)
  }

  // ----- Content -----

  datatype Modality = Image | Pdf

  datatype Source = Base64Source(data: string) | AssetSource(assetId: string) | UrlSource(url: string)

  datatype Part =
    | TextPart(text: string)
    | MediaPart(kind: Modality, source: Source, filename: Option<string>, mime: Option<string>)

  const MAX_TEXT := 200_000
  const MAX_PARTS := 32
  const MAX_BASE64 := 2_796_204

  datatype Profile = Generic | ErrorScreenshot | Document

  datatype PrepareRequest = PrepareRequest(content: seq<Part>, target: string, profile: Profile)

  /** `detect_media`. */
  function Modalities(content: seq<Part>): (m: set<Modality>)
    ensures m == {} <==> !HasMedia(content)
  {
    var m := set i | 0 <= i < |content| && content[i].MediaPart? :: content[i].kind;
    assert forall i :: 0 <= i < |content| && content[i].MediaPart? ==> content[i].kind in m;
    m
  }

  predicate HasMedia(content: seq<Part>) {
    exists i :: 0 <= i < |content| && content[i].MediaPart?
  }

  function Texts(content: seq<Part>): seq<string> {
    if content == [] then []
    else if content[0].TextPart? then [content[0].text] + Texts(content[1..])
    else Texts(content[1..])
  }
}
