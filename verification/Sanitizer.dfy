/**
 * The fail-closed text sanitizer: two regular-expression substitutions, locator removal and
 * the re-checks that follow them.
 */
module Sanitizer {
  import opened Common
  import opened Text

  const REMOVED_REFERENCE := "[removed-media-reference]"
  const REMOVED_BINARY := "[removed-binary-data]"
  const BLOB_MINIMUM := 128

  datatype SanitizationError =
    | TooLong
    | LocatorRemains
    | MediaReferenceRemains
    | BinaryRemains
    | NoSafeText

  /** Unicode normalization and `str.isalnum`, which the model leaves open. */
  datatype Unicode = Unicode(nfkc: string -> string, isAlnum: char -> bool)

  // ----- Regular expressions -----

  /** What `re.IGNORECASE` compares: case folding of one character, as far as ASCII letters are concerned. */
  function Fold(c: char): char {
    if 'A' <= c <= 'Z' then (c as int + 32) as char
    else if c == '\U{130}' || c == '\U{131}' then 'i'
    else if c == '\U{17F}' then 's'
    else if c == '\U{212A}' then 'k'
    else c
  }

  predicate IsWord(c: char) {
    'a' <= Fold(c) <= 'z' || '0' <= c <= '9'
  }

  datatype CharClass = MimeName | Payload | Blob | Equals | Blank {
    predicate Has(c: char) {
      match this
      case MimeName => IsWord(c) || c in ".+-"
      case Payload => IsWord(c) || c in "+/=_-"
      case Blob => IsWord(c) || c in "+/_-"
      case Equals => c == '='
      case Blank => IsSpace(c)
    }
  }

  /** The length of the longest prefix of `s` inside the class: a greedy `[...]*`. */
  function Run(s: string, cls: CharClass): (n: nat)
    ensures n <= |s|
    ensures forall k :: 0 <= k < n ==> cls.Has(s[k])
    ensures n < |s| ==> !cls.Has(s[n])
  {
    if s != "" && cls.Has(s[0]) then 1 + Run(s[1..], cls) else 0
  }

  predicate StartsFolded(s: string, literal: string) {
    |literal| <= |s| && forall k :: 0 <= k < |literal| ==> Fold(s[k]) == literal[k]
  }

  /** Length of the media-type head of a data URL at the start of `s`; 0 when there is none. */
  function DataHead(s: string): (n: nat)
    ensures n <= |s|
  {
    if StartsFolded(s, "data:image/") && Run(s[11..], MimeName) > 0 then 11 + Run(s[11..], MimeName)
    else if StartsFolded(s, "data:application/pdf") then 20
    else 0
  }

  /** Length of the data-URL match at the start of `s`; 0 when there is none. */
  function DataUrl(s: string): (n: nat)
    ensures n <= |s|
  {
    var head := DataHead(s);
    if head > 0 && StartsFolded(s[head..], ";base64,") && Run(s[head + 8..], Payload) > 0
    then head + 8 + Run(s[head + 8..], Payload) else 0
  }

  /** Length of the base64-run match at the start of `s` (lookbehind excluded); 0 when there is none. */
  function BlobMatch(s: string): (n: nat)
    ensures n <= |s|
    ensures n > 0 <==> Run(s, Blob) >= BLOB_MINIMUM
    ensures 0 < n < |s| ==> !Blob.Has(s[n])
  {
    var run := Run(s, Blob);
    var equals := Run(s[run..], Equals);
    var k := if equals < 2 then equals else 2;
    if run < BLOB_MINIMUM then 0
    else if k > 0 && run + k < |s| && Blob.Has(s[run + k]) then run + k - 1
    else run + k
  }

  function SubDataUrls(s: string): string
    decreases |s|
  {
    if s == "" then ""
    else if DataUrl(s) > 0 then REMOVED_BINARY + SubDataUrls(s[DataUrl(s)..])
    else [s[0]] + SubDataUrls(s[1..])
  }

  /** `inRun`: the character before `s` is in the class, so the lookbehind fails here. */
  function SubBlobs(inRun: bool, s: string): string
    decreases |s|
  {
    if s == "" then ""
    else if !inRun && BlobMatch(s) > 0 then
      REMOVED_BINARY + SubBlobs(Blob.Has(s[BlobMatch(s) - 1]), s[BlobMatch(s)..])
    else [s[0]] + SubBlobs(Blob.Has(s[0]), s[1..])
  }

  /** `_DATA_URL.search` finds nothing. */
  predicate NoDataUrl(s: string) {
    forall i :: 0 <= i <= |s| ==> DataUrl(s[i..]) == 0
  }

  /** Whether position `i` starts a match of the base64-run expression. */
  predicate BlobAt(inRun: bool, s: string, i: nat)
    requires i <= |s|
  {
    !(if i == 0 then inRun else Blob.Has(s[i - 1])) && BlobMatch(s[i..]) > 0
  }

  /** `_BASE64_BLOB.search` finds nothing, `inRun` being the state of the lookbehind at the start. */
  predicate NoBlob(inRun: bool, s: string) {
    forall i :: 0 <= i <= |s| ==> !BlobAt(inRun, s, i)
  }

  function SkipBlank(s: string): string {
    s[Run(s, Blank)..]
  }

  /** The text after a literal and the blanks that follow it, if the literal is there. */
  function AfterLiteral(s: string, literal: string): Option<string> {
    if StartsFolded(s, literal) then Some(SkipBlank(s[|literal|..])) else None
  }

  /** `data\s*:\s*(?:image\s*\/|application\s*\/\s*pdf)` at the start of `s`. */
  predicate MediaReference(s: string) {
    var a := AfterLiteral(s, "data");
    a.Some? && (var b := AfterLiteral(a.value, ":"); b.Some? && MediaName(b.value))
  }

  predicate MediaName(s: string) {
    || (var c := AfterLiteral(s, "image"); c.Some? && StartsFolded(c.value, "/"))
    || (var c := AfterLiteral(s, "application");
        c.Some? && (var d := AfterLiteral(c.value, "/"); d.Some? && StartsFolded(d.value, "pdf")))
  }

  predicate HasMediaReference(s: string) {
    exists i :: 0 <= i <= |s| && MediaReference(s[i..])
  }

  // ----- The sanitizer -----

  predicate IsControl(c: char) {
    c <= '\U{8}' || c == '\U{B}' || c == '\U{C}' || '\U{E}' <= c <= '\U{1F}' || c == '\U{7F}'
  }

  function DropControls(s: string): (r: string)
    ensures (forall k :: 0 <= k < |s| ==> !IsControl(s[k])) ==> r == s
  {
    if s == "" then ""
    else if IsControl(s[0]) then DropControls(s[1..])
    else [s[0]] + DropControls(s[1..])
  }

  function RemoveLocators(s: string, locators: seq<string>): string
    requires "" !in locators
    decreases |locators|
  {
    if locators == [] then s
    else RemoveLocators(ReplaceAll(s, locators[0], REMOVED_REFERENCE), locators[1..])
  }

  /** The text after every substitution, before the re-checks. */
  function Rewrite(uni: Unicode, text: string, locators: seq<string>): string
    requires "" !in locators
  {
    Strip(SubBlobs(false, SubDataUrls(RemoveLocators(DropControls(uni.nfkc(text)), locators))))
  }

  function SemanticText(s: string): string {
    ReplaceAll(ReplaceAll(s, REMOVED_REFERENCE, ""), REMOVED_BINARY, "")
  }

  /** The re-checks, in the order of the code. */
  function Recheck(uni: Unicode, s: string, locators: seq<string>, maxLength: nat): Result<string, SanitizationError>
  {
    if |s| > maxLength then Err(TooLong)
    else if exists l :: l in locators && Contains(s, l) then Err(LocatorRemains)
    else if HasMediaReference(s) then Err(MediaReferenceRemains)
    else if !NoDataUrl(s) || !NoBlob(false, s) then Err(BinaryRemains)
    else if forall c :: c in SemanticText(s) ==> !uni.isAlnum(c) then Err(NoSafeText)
    else Ok(s)
  }

  /**
   * `sanitize_model_text`. `locators` are the normalized forbidden locators in the order the code
   * tries them; every result below holds for every order.
   */
  function Sanitize(uni: Unicode, text: string, locators: seq<string>, maxLength: nat): Result<string,
                    SanitizationError>
    requires "" !in locators
  {
    Recheck(uni, Rewrite(uni, text, locators), locators, maxLength)
  }

  // ----- One substitution pass is complete -----

  /** A rewritten text is made of a verbatim piece up to the first bracketed marker. */
  ghost predicate Stops(rest: string) {
    rest != "" ==> rest[0] == '['
  }

  lemma BracketInNoClass(cls: CharClass)
    ensures cls != Blank ==> !cls.Has('[')
  {
  }

  lemma {:induction false} RunStops(u: string, rest: string, cls: CharClass)
    requires Stops(rest) && cls != Blank
    ensures Run(u + rest, cls) == Run(u, cls)
  {
    hide IsWord;
    BracketInNoClass(cls);
    if u == "" {
      assert u + rest == rest;
    } else if cls.Has(u[0]) {
      assert (u + rest)[1..] == u[1..] + rest;
      RunStops(u[1..], rest, cls);
    }
  }

  lemma {:induction false} RunGrows(u: string, w: string, cls: CharClass)
    ensures Run(u + w, cls) >= Run(u, cls)
    ensures Run(u, cls) < |u| ==> Run(u + w, cls) == Run(u, cls)
  {
    hide IsWord;
    if u != "" && cls.Has(u[0]) {
      assert (u + w)[1..] == u[1..] + w;
      RunGrows(u[1..], w, cls);
    }
  }

  lemma FoldedGrows(u: string, w: string, literal: string)
    ensures StartsFolded(u, literal) ==> StartsFolded(u + w, literal)
  {
  }

  /** No literal of the data-URL expression contains a bracket, so a match cannot reach into a marker. */
  lemma FoldedStops(u: string, rest: string, literal: string)
    requires Stops(rest) && '[' !in literal
    ensures StartsFolded(u + rest, literal) ==> StartsFolded(u, literal)
  {
    if |u| < |literal| && rest != "" {
      assert (u + rest)[|u|] == '[' && literal[|u|] in literal;
    }
  }

  lemma DataHeadGrows(u: string, w: string)
    requires DataHead(u) > 0 && DataHead(u) < |u|
    ensures DataHead(u + w) == DataHead(u)
  {
    FoldedGrows(u, w, "data:image/");
    FoldedGrows(u, w, "data:application/pdf");
    if StartsFolded(u, "data:image/") {
      assert (u + w)[11..] == u[11..] + w;
      RunGrows(u[11..], w, MimeName);
    } else {
      assert Fold(u[5]) == 'a';
    }
  }

  lemma DataUrlGrows(u: string, w: string)
    requires DataUrl(u) > 0
    ensures DataUrl(u + w) > 0
  {
    hide DataHead, Run, Fold;
    var head := DataHead(u);
    DataHeadGrows(u, w);
    assert (u + w)[head..] == u[head..] + w;
    assert (u + w)[head + 8..] == u[head + 8..] + w;
    FoldedGrows(u[head..], w, ";base64,");
    RunGrows(u[head + 8..], w, Payload);
  }

  lemma DataHeadStops(u: string, rest: string)
    requires Stops(rest)
    ensures DataHead(u + rest) == DataHead(u)
  {
    hide Run, Fold;
    FoldedStops(u, rest, "data:image/");
    FoldedStops(u, rest, "data:application/pdf");
    FoldedGrows(u, rest, "data:image/");
    FoldedGrows(u, rest, "data:application/pdf");
    if StartsFolded(u, "data:image/") {
      assert (u + rest)[11..] == u[11..] + rest;
      RunStops(u[11..], rest, MimeName);
    }
  }

  lemma DataUrlStops(u: string, rest: string)
    requires Stops(rest)
    ensures DataUrl(u + rest) > 0 ==> DataUrl(u) > 0
  {
    hide DataHead, Run, Fold;
    DataHeadStops(u, rest);
    var head := DataHead(u);
    if DataUrl(u + rest) > 0 {
      assert (u + rest)[head..] == u[head..] + rest;
      FoldedStops(u[head..], rest, ";base64,");
      assert (u + rest)[head + 8..] == u[head + 8..] + rest;
      RunStops(u[head + 8..], rest, Payload);
    }
  }

  /** The verbatim piece at the front of a substitution result is also the front of its input. */
  ghost predicate SharesFront(before: string, after: string, u: string, w: string, rest: string) {
    before == u + w && after == u + rest && Stops(rest)
  }

  lemma {:induction false} DataUrlFront(s: string) returns (u: string, w: string, rest: string)
    ensures SharesFront(s, SubDataUrls(s), u, w, rest)
    decreases |s|
  {
    hide DataUrl;
    if s == "" || DataUrl(s) > 0 {
      u, w, rest := "", s, SubDataUrls(s);
    } else {
      var v;
      v, w, rest := DataUrlFront(s[1..]);
      u := [s[0]] + v;
      assert u + w == [s[0]] + (v + w) && u + rest == [s[0]] + (v + rest);
    }
  }

  lemma {:induction false} BlobFront(inRun: bool, s: string) returns (u: string, w: string, rest: string)
    ensures SharesFront(s, SubBlobs(inRun, s), u, w, rest)
    decreases |s|
  {
    hide BlobMatch, IsWord;
    if s == "" || (!inRun && BlobMatch(s) > 0) {
      u, w, rest := "", s, SubBlobs(inRun, s);
    } else {
      var v;
      v, w, rest := BlobFront(Blob.Has(s[0]), s[1..]);
      u := [s[0]] + v;
      assert u + w == [s[0]] + (v + w) && u + rest == [s[0]] + (v + rest);
    }
  }

  lemma NoHeadNoUrl(s: string, k: nat)
    requires k < 5 && k < |s| && Fold(s[k]) != "data:"[k]
    ensures DataUrl(s) == 0
  {
  }

  lemma MarkerHoldsNoDataUrl(i: nat, rest: string)
    requires i < |REMOVED_BINARY|
    ensures DataUrl(REMOVED_BINARY[i..] + rest) == 0
  {
    var s := REMOVED_BINARY[i..] + rest;
    var k := if i == 7 then 1 else if i == 16 then 4 else 0;
    assert s[k] == REMOVED_BINARY[i + k];
    NoHeadNoUrl(s, k);
  }

  lemma CleanAfterMarker(rest: string)
    requires NoDataUrl(rest)
    ensures NoDataUrl(REMOVED_BINARY + rest)
  {
    var s := REMOVED_BINARY + rest;
    forall i | 0 <= i <= |s| ensures DataUrl(s[i..]) == 0 {
      if i < |REMOVED_BINARY| {
        assert s[i..] == REMOVED_BINARY[i..] + rest;
        MarkerHoldsNoDataUrl(i, rest);
      } else {
        assert s[i..] == rest[i - |REMOVED_BINARY|..];
      }
    }
  }

  lemma CleanAfterChar(c: char, rest: string)
    requires NoDataUrl(rest) && DataUrl([c] + rest) == 0
    ensures NoDataUrl([c] + rest)
  {
    var s := [c] + rest;
    forall i | 0 <= i <= |s| ensures DataUrl(s[i..]) == 0 {
      if i == 0 {
        assert s[0..] == s;
      } else {
        assert s[i..] == rest[i - 1..];
      }
    }
  }

  lemma {:induction false} SubDataUrlsIsComplete(s: string)
    ensures NoDataUrl(SubDataUrls(s))
    decreases |s|
  {
    if s != "" {
      if DataUrl(s) > 0 {
        SubDataUrlsIsComplete(s[DataUrl(s)..]);
        CleanAfterMarker(SubDataUrls(s[DataUrl(s)..]));
      } else {
        SubDataUrlsIsComplete(s[1..]);
        var u, w, rest := DataUrlFront(s);
        FrontKeepsOutDataUrls(s, SubDataUrls(s), u, w, rest);
        CleanAfterChar(s[0], SubDataUrls(s[1..]));
      }
    }
  }

  lemma FrontKeepsOutDataUrls(before: string, after: string, u: string, w: string, rest: string)
    requires SharesFront(before, after, u, w, rest) && DataUrl(before) == 0
    ensures DataUrl(after) == 0
  {
    DataUrlStops(u, rest);
    if DataUrl(u) > 0 {
      DataUrlGrows(u, w);
    }
  }

  lemma {:induction false} SubBlobsMakesNoDataUrl(inRun: bool, s: string)
    requires NoDataUrl(s)
    ensures NoDataUrl(SubBlobs(inRun, s))
    decreases |s|
  {
    if s != "" {
      forall n | 0 <= n <= |s| ensures NoDataUrl(s[n..]) {
        forall i | 0 <= i <= |s[n..]| ensures DataUrl(s[n..][i..]) == 0 {
          assert s[n..][i..] == s[n + i..];
        }
      }
      if !inRun && BlobMatch(s) > 0 {
        var n := BlobMatch(s);
        SubBlobsMakesNoDataUrl(Blob.Has(s[n - 1]), s[n..]);
        CleanAfterMarker(SubBlobs(Blob.Has(s[n - 1]), s[n..]));
      } else {
        SubBlobsMakesNoDataUrl(Blob.Has(s[0]), s[1..]);
        var u, w, rest := BlobFront(inRun, s);
        assert s == s[0..];
        FrontKeepsOutDataUrls(s, SubBlobs(inRun, s), u, w, rest);
        CleanAfterChar(s[0], SubBlobs(Blob.Has(s[0]), s[1..]));
      }
    }
  }

  lemma BlobsAfterMarker(rest: string)
    requires NoBlob(false, rest)
    ensures NoBlob(false, REMOVED_BINARY + rest)
  {
    var s := REMOVED_BINARY + rest;
    var m := |REMOVED_BINARY|;
    forall i | 0 <= i <= |s| ensures !BlobAt(false, s, i) {
      if i < m {
        assert s[i..][m - 1 - i] == ']';
        assert Run(s[i..], Blob) <= m;
      } else {
        assert s[i..] == rest[i - m..];
        if i > m {
          assert s[i - 1] == rest[i - m - 1];
        }
        assert !BlobAt(false, rest, i - m);
      }
    }
  }

  lemma BlobsAfterChar(inRun: bool, c: char, rest: string)
    requires NoBlob(Blob.Has(c), rest)
    requires !inRun ==> BlobMatch([c] + rest) == 0
    ensures NoBlob(inRun, [c] + rest)
  {
    var s := [c] + rest;
    forall i | 0 <= i <= |s| ensures !BlobAt(inRun, s, i) {
      if i == 0 {
        assert s[0..] == s;
      } else {
        assert s[i..] == rest[i - 1..];
        assert i > 1 ==> s[i - 1] == rest[i - 2];
        assert !BlobAt(Blob.Has(c), rest, i - 1);
      }
    }
  }

  /** Right after a match the class cannot continue, so the lookbehind there is immaterial. */
  lemma AfterMatch(inRun: bool, s: string)
    requires s != "" ==> !Blob.Has(s[0])
    requires NoBlob(inRun, SubBlobs(inRun, s))
    ensures NoBlob(false, SubBlobs(inRun, s))
  {
    var r := SubBlobs(inRun, s);
    forall i | 0 <= i <= |r| ensures !BlobAt(false, r, i) {
      assert !BlobAt(inRun, r, i);
      if i == 0 && s != "" {
        assert r[0] == s[0];
        assert r[0..] == r;
      }
    }
  }

  lemma {:induction false} SubBlobsIsComplete(inRun: bool, s: string)
    ensures NoBlob(inRun, SubBlobs(inRun, s))
    decreases |s|
  {
    if s == "" {
    } else if !inRun && BlobMatch(s) > 0 {
      var n := BlobMatch(s);
      SubBlobsIsComplete(Blob.Has(s[n - 1]), s[n..]);
      AfterMatch(Blob.Has(s[n - 1]), s[n..]);
      BlobsAfterMarker(SubBlobs(Blob.Has(s[n - 1]), s[n..]));
    } else {
      SubBlobsIsComplete(Blob.Has(s[0]), s[1..]);
      if !inRun {
        var u, w, rest := BlobFront(inRun, s);
        RunStops(u, rest, Blob);
        RunGrows(u, w, Blob);
      }
      BlobsAfterChar(inRun, s[0], SubBlobs(Blob.Has(s[0]), s[1..]));
    }
  }

  lemma SliceKeepsOutDataUrls(s: string, a: nat, b: nat)
    requires NoDataUrl(s) && a <= b <= |s|
    ensures NoDataUrl(s[a..b])
  {
    forall i | 0 <= i <= b - a ensures DataUrl(s[a..b][i..]) == 0 {
      assert s[a + i..] == s[a..b][i..] + s[b..];
      if DataUrl(s[a..b][i..]) > 0 {
        DataUrlGrows(s[a..b][i..], s[b..]);
      }
    }
  }

  lemma SliceKeepsOutBlobs(s: string, a: nat, b: nat)
    requires NoBlob(false, s) && a <= b <= |s|
    requires a > 0 ==> !Blob.Has(s[a - 1])
    ensures NoBlob(false, s[a..b])
  {
    forall i | 0 <= i <= b - a ensures !BlobAt(false, s[a..b], i) {
      assert s[a + i..] == s[a..b][i..] + s[b..];
      RunGrows(s[a..b][i..], s[b..], Blob);
      assert !BlobAt(false, s, a + i);
      if i > 0 {
        assert s[a..b][i - 1] == s[a + i - 1];
      }
    }
  }

  lemma StripKeepsClean(s: string)
    requires NoDataUrl(s) && NoBlob(false, s)
    ensures NoDataUrl(Strip(s)) && NoBlob(false, Strip(s))
  {
    var a, b := StripCuts(s);
    SliceKeepsOutDataUrls(s, a, b);
    SliceKeepsOutBlobs(s, a, b);
  }

  /**
   * After the two substitutions and the strip, neither expression matches anywhere, so the
   * re-check for binary data never rejects a text.
   */
  lemma OnePassIsComplete(uni: Unicode, text: string, locators: seq<string>, maxLength: nat)
    requires "" !in locators
    ensures NoDataUrl(Rewrite(uni, text, locators)) && NoBlob(false, Rewrite(uni, text, locators))
    ensures Sanitize(uni, text, locators, maxLength) != Err(BinaryRemains)
  {
    hide SubDataUrls, SubBlobs, Strip, RemoveLocators, DropControls, NoDataUrl, NoBlob, SemanticText;
    var s := RemoveLocators(DropControls(uni.nfkc(text)), locators);
    SubDataUrlsIsComplete(s);
    SubBlobsMakesNoDataUrl(false, SubDataUrls(s));
    SubBlobsIsComplete(false, SubDataUrls(s));
    StripKeepsClean(SubBlobs(false, SubDataUrls(s)));
  }

  // ----- Sanitizing is idempotent, and the identity on text that is already safe -----

  ghost predicate NoControls(s: string) {
    forall c :: c in s ==> !IsControl(c)
  }

  lemma {:induction false} DropControlsDrops(s: string)
    ensures NoControls(DropControls(s))
  {
    if s != "" {
      DropControlsDrops(s[1..]);
    }
  }

  lemma {:induction false} ReplaceKeepsControlsOut(s: string, part: string, insert: string)
    requires NoControls(s) && NoControls(insert) && part != ""
    ensures NoControls(ReplaceAll(s, part, insert))
    decreases |s|
  {
    if s != "" {
      ReplaceKeepsControlsOut(if part <= s then s[|part|..] else s[1..], part, insert);
    }
  }

  lemma {:induction false} LocatorsKeepControlsOut(s: string, locators: seq<string>)
    requires NoControls(s) && "" !in locators
    ensures NoControls(RemoveLocators(s, locators))
    decreases |locators|
  {
    if locators != [] {
      ReplaceKeepsControlsOut(s, locators[0], REMOVED_REFERENCE);
      LocatorsKeepControlsOut(ReplaceAll(s, locators[0], REMOVED_REFERENCE), locators[1..]);
    }
  }

  lemma MarkersHoldNoControls()
    ensures NoControls(REMOVED_BINARY) && NoControls(REMOVED_REFERENCE)
  {
  }

  lemma {:induction false} DataUrlsKeepControlsOut(s: string)
    requires NoControls(s)
    ensures NoControls(SubDataUrls(s))
    decreases |s|
  {
    hide DataUrl, IsControl;
    MarkersHoldNoControls();
    if s != "" {
      DataUrlsKeepControlsOut(if DataUrl(s) > 0 then s[DataUrl(s)..] else s[1..]);
    }
  }

  lemma {:induction false} BlobsKeepControlsOut(inRun: bool, s: string)
    requires NoControls(s)
    ensures NoControls(SubBlobs(inRun, s))
    decreases |s|
  {
    hide BlobMatch, IsControl, IsWord;
    MarkersHoldNoControls();
    if s == "" {
    } else if !inRun && BlobMatch(s) > 0 {
      var n := BlobMatch(s);
      BlobsKeepControlsOut(Blob.Has(s[n - 1]), s[n..]);
    } else {
      BlobsKeepControlsOut(Blob.Has(s[0]), s[1..]);
    }
  }

  lemma RewriteKeepsControlsOut(uni: Unicode, text: string, locators: seq<string>)
    requires "" !in locators
    ensures NoControls(Rewrite(uni, text, locators)) && Trimmed(Rewrite(uni, text, locators))
  {
    var s0 := DropControls(uni.nfkc(text));
    DropControlsDrops(uni.nfkc(text));
    LocatorsKeepControlsOut(s0, locators);
    DataUrlsKeepControlsOut(RemoveLocators(s0, locators));
    var s1 := SubDataUrls(RemoveLocators(s0, locators));
    BlobsKeepControlsOut(false, s1);
    var a, b := StripCuts(SubBlobs(false, s1));
  }

  lemma {:induction false} DataUrlsAbsent(s: string)
    requires NoDataUrl(s)
    ensures SubDataUrls(s) == s
    decreases |s|
  {
    if s != "" {
      assert s[0..] == s;
      forall i | 0 <= i <= |s[1..]| ensures DataUrl(s[1..][i..]) == 0 {
        assert s[1..][i..] == s[i + 1..];
      }
      DataUrlsAbsent(s[1..]);
    }
  }

  lemma {:induction false} BlobsAbsent(inRun: bool, s: string)
    requires NoBlob(inRun, s)
    ensures SubBlobs(inRun, s) == s
    decreases |s|
  {
    if s != "" {
      assert s[0..] == s && !BlobAt(inRun, s, 0);
      forall i | 0 <= i <= |s[1..]| ensures !BlobAt(Blob.Has(s[0]), s[1..], i) {
        assert s[1..][i..] == s[i + 1..] && !BlobAt(inRun, s, i + 1);
      }
      BlobsAbsent(Blob.Has(s[0]), s[1..]);
    }
  }

  lemma {:induction false} LocatorsAbsent(s: string, locators: seq<string>)
    requires "" !in locators && forall l :: l in locators ==> !Contains(s, l)
    ensures RemoveLocators(s, locators) == s
    decreases |locators|
  {
    if locators != [] {
      ReplaceAbsent(s, locators[0], REMOVED_REFERENCE);
      LocatorsAbsent(s, locators[1..]);
    }
  }

  /** The texts no step of the rewriting changes. */
  ghost predicate AlreadySafe(uni: Unicode, s: string, locators: seq<string>) {
    && uni.nfkc(s) == s && NoControls(s) && Trimmed(s)
    && (forall l :: l in locators ==> !Contains(s, l))
    && NoDataUrl(s) && NoBlob(false, s)
  }

  lemma SafeTextIsKept(uni: Unicode, s: string, locators: seq<string>)
    requires "" !in locators && AlreadySafe(uni, s, locators)
    ensures Rewrite(uni, s, locators) == s
  {
    LocatorsAbsent(s, locators);
    DataUrlsAbsent(s);
    BlobsAbsent(false, s);
    StripTrimmed(s);
  }

  /** Unicode normalization leaves ASCII text alone. */
  ghost predicate KeepsAscii(uni: Unicode) {
    forall s: string :: (forall c :: c in s ==> c <= '\U{7F}') ==> uni.nfkc(s) == s
  }

  /** Sanitizing an accepted ASCII text again, with the same locators, returns it unchanged. */
  lemma SanitizeIsIdempotent(uni: Unicode, text: string, locators: seq<string>, maxLength: nat)
    requires "" !in locators && KeepsAscii(uni)
    requires Sanitize(uni, text, locators, maxLength).Ok?
    requires forall c :: c in Sanitize(uni, text, locators, maxLength).value ==> c <= '\U{7F}'
    ensures var once := Sanitize(uni, text, locators, maxLength);
            Sanitize(uni, once.value, locators, maxLength) == once
  {
    var r := Rewrite(uni, text, locators);
    OnePassIsComplete(uni, text, locators, maxLength);
    RewriteKeepsControlsOut(uni, text, locators);
    SafeTextIsKept(uni, r, locators);
  }

  lemma LowerIsFolded(s: string, literal: string)
    requires StartsWithLower(s, literal) && forall c :: c in literal ==> c <= '\U{7F}'
    ensures StartsFolded(s, literal)
  {
    forall k | 0 <= k < |literal| ensures Fold(s[k]) == literal[k] {
      assert literal[k] in literal;
    }
  }

  lemma FoldedIsNotBlank(c: char, d: char)
    requires Fold(c) == d && !IsSpace(d)
    ensures !IsSpace(c)
  {
  }

  lemma NoBlanksToSkip(s: string)
    requires s != "" && !IsSpace(s[0])
    ensures SkipBlank(s) == s
  {
  }

  /** A literal followed by another without blanks between them. */
  lemma LiteralThenLiteral(s: string, first: string, second: string)
    requires StartsFolded(s, first + second) && second != "" && !IsSpace(second[0])
    ensures AfterLiteral(s, first) == Some(s[|first|..]) && StartsFolded(s[|first|..], second)
  {
    var rest := s[|first|..];
    forall k | 0 <= k < |first| ensures Fold(s[k]) == first[k] {
      assert (first + second)[k] == first[k];
    }
    forall k | 0 <= k < |second| ensures Fold(rest[k]) == second[k] {
      assert (first + second)[|first| + k] == second[k] && rest[k] == s[|first| + k];
    }
    FoldedIsNotBlank(rest[0], second[0]);
    NoBlanksToSkip(rest);
  }

  lemma ImageNameIsMediaName(s: string)
    requires StartsFolded(s, "image" + "/")
    ensures MediaName(s)
  {
    LiteralThenLiteral(s, "image", "/");
  }

  lemma PdfNameIsMediaName(s: string)
    requires StartsFolded(s, "application" + ("/" + "pdf"))
    ensures MediaName(s)
  {
    LiteralThenLiteral(s, "application", "/" + "pdf");
    LiteralThenLiteral(s[11..], "/", "pdf");
  }

  lemma DataNameIsReference(s: string, name: string)
    requires StartsFolded(s, "data" + (":" + name)) && name != "" && !IsSpace(name[0])
    requires forall t :: StartsFolded(t, name) ==> MediaName(t)
    ensures MediaReference(s)
  {
    LiteralThenLiteral(s, "data", ":" + name);
    LiteralThenLiteral(s[4..], ":", name);
  }

  /** A sanitized text never starts as inline media data, which is what the guard rejects. */
  lemma SanitizedIsNoMediaData(uni: Unicode, text: string, locators: seq<string>, maxLength: nat)
    requires "" !in locators && Sanitize(uni, text, locators, maxLength).Ok?
    ensures !StartsAsMediaData(Sanitize(uni, text, locators, maxLength).value)
  {
    hide Rewrite, MediaReference;
    var s := Rewrite(uni, text, locators);
    assert s[0..] == s;
    assert !MediaReference(s[0..]);
    if StartsAsMediaData(s) {
      StartsAsReference(s);
    }
  }

  lemma StartsAsReference(s: string)
    requires StartsAsMediaData(s)
    ensures MediaReference(s)
  {
    hide MediaReference;
    if StartsWithLower(s, "data:image/") {
      ImageDataIsReference(s);
    } else {
      PdfDataIsReference(s);
    }
  }

  lemma ImageDataIsReference(s: string)
    requires StartsWithLower(s, "data:image/")
    ensures MediaReference(s)
  {
    hide MediaReference, MediaName, Run, SkipBlank;
    LowerIsFolded(s, "data:image/");
    assert "data:image/" == "data" + (":" + ("image" + "/"));
    forall t | StartsFolded(t, "image" + "/") ensures MediaName(t) {
      ImageNameIsMediaName(t);
    }
    DataNameIsReference(s, "image" + "/");
  }

  lemma PdfDataIsReference(s: string)
    requires StartsWithLower(s, "data:application/pdf")
    ensures MediaReference(s)
  {
    hide MediaReference, MediaName, Run, SkipBlank;
    LowerIsFolded(s, "data:application/pdf");
    assert "data:application/pdf" == "data" + (":" + ("application" + ("/" + "pdf")));
    forall t | StartsFolded(t, "application" + ("/" + "pdf")) ensures MediaName(t) {
      PdfNameIsMediaName(t);
    }
    DataNameIsReference(s, "application" + ("/" + "pdf"));
  }

  /** Everything the callers rely on about an accepted text. */
  lemma SanitizedIsSafe(uni: Unicode, text: string, locators: seq<string>, maxLength: nat)
    requires "" !in locators && Sanitize(uni, text, locators, maxLength).Ok?
    ensures var s := Sanitize(uni, text, locators, maxLength).value;
            && |s| <= maxLength && !StartsAsMediaData(s) && NoControls(s) && Trimmed(s)
            && (forall l :: l in locators ==> !Contains(s, l))
  {
    hide Rewrite, StartsAsMediaData;
    SanitizedIsNoMediaData(uni, text, locators, maxLength);
    RewriteKeepsControlsOut(uni, text, locators);
  }

  /** `sanitize_model_text` with its loop over the locators, computing exactly `Sanitize`. */
  method SanitizeModelText(uni: Unicode, text: string, locators: seq<string>, maxLength: nat)
    returns (r: Result<string, SanitizationError>)
    requires "" !in locators
    ensures r == Sanitize(uni, text, locators, maxLength)
  {
    var sanitized := DropControls(uni.nfkc(text));
    for i := 0 to |locators|
      invariant RemoveLocators(sanitized, locators[i..])
             == RemoveLocators(DropControls(uni.nfkc(text)), locators)
    {
      assert locators[i..][1..] == locators[i + 1..];
      sanitized := ReplaceAll(sanitized, locators[i], REMOVED_REFERENCE);
    }
    sanitized := SubDataUrls(sanitized);
    sanitized := SubBlobs(false, sanitized);
    sanitized := Strip(sanitized);
    r := Recheck(uni, sanitized, locators, maxLength);
  }
}
