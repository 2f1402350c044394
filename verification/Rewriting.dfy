/**
 * What the sanitizer's substitutions do to a text, said without the functions that carry them out: the expressions
 * match what they describe, every match is replaced once, and everything else is kept in order.
 */
module Rewriting {
  import opened Common
  import opened Sanitizer
  import opened Text

  // ----- Replacing stretches of a text -----

  datatype Stretch = Stretch(from: nat, to: nat)

  /** Non-empty stretches of `s` from `at` on, one behind the other. */
  ghost predicate InOrder(s: string, at: nat, found: seq<Stretch>)
    decreases |found|
  {
    && at <= |s|
    && (found != [] ==> at <= found[0].from < found[0].to <= |s| && InOrder(s, found[0].to, found[1..]))
  }

  /** The text from `at` on with every stretch replaced by the marker. */
  ghost function Spliced(s: string, at: nat, found: seq<Stretch>, marker: string): string
    requires InOrder(s, at, found)
    decreases |found|
  {
    if found == [] then s[at..]
    else s[at..found[0].from] + marker + Spliced(s, found[0].to, found[1..], marker)
  }

  ghost predicate Covered(found: seq<Stretch>, p: nat) {
    exists i :: 0 <= i < |found| && found[i].from <= p < found[i].to
  }

  /** The length of the match at every position of `s`, or 0. */
  ghost predicate Fit(s: string, matches: seq<nat>) {
    |matches| == |s| && forall p :: 0 <= p < |s| ==> p + matches[p] <= |s|
  }

  /** `found` are exactly the matches met from left to right. */
  ghost predicate AreTheMatches(s: string, at: nat, found: seq<Stretch>, matches: seq<nat>)
    requires |matches| == |s|
  {
    && InOrder(s, at, found)
    && (forall i :: 0 <= i < |found| ==> found[i].from < |s| && matches[found[i].from] == found[i].to - found[i].from)
    && (forall p :: at <= p < |s| && !Covered(found, p) ==> matches[p] == 0)
  }

  /** Every match is replaced by the marker, and nothing else is touched. */
  ghost predicate Replaced(before: string, matches: seq<nat>, marker: string, after: string)
    requires |matches| == |before|
  {
    exists found :: AreTheMatches(before, 0, found, matches) && after == Spliced(before, 0, found, marker)
  }

  /** A scan from left to right: what all substitutions have in common. */
  ghost function Scanned(s: string, at: nat, matches: seq<nat>, marker: string): string
    requires at <= |s| && Fit(s, matches)
    decreases |s| - at
  {
    if at == |s| then ""
    else if matches[at] > 0 then marker + Scanned(s, at + matches[at], matches, marker)
    else [s[at]] + Scanned(s, at + 1, matches, marker)
  }

  lemma {:induction false} ScanFinds(s: string, at: nat, matches: seq<nat>, marker: string)
    returns (found: seq<Stretch>)
    requires at <= |s| && Fit(s, matches)
    ensures AreTheMatches(s, at, found, matches) && Scanned(s, at, matches, marker) == Spliced(s, at, found, marker)
    decreases |s| - at
  {
    hide AreTheMatches, Spliced, Covered;
    if at == |s| {
      found := [];
      NothingFound(s, matches, marker);
    } else if matches[at] > 0 {
      var rest := ScanFinds(s, at + matches[at], matches, marker);
      found := [Stretch(at, at + matches[at])] + rest;
      MatchInFront(s, at, rest, matches, marker);
    } else {
      found := ScanFinds(s, at + 1, matches, marker);
      CharInFront(s, at, found, matches, marker);
    }
  }

  lemma NothingFound(s: string, matches: seq<nat>, marker: string)
    requires |matches| == |s|
    ensures AreTheMatches(s, |s|, [], matches) && Spliced(s, |s|, [], marker) == ""
  {
  }

  lemma CoveredBehind(first: Stretch, rest: seq<Stretch>, p: nat)
    ensures Covered([first] + rest, p) <==> first.from <= p < first.to || Covered(rest, p)
  {
    var found := [first] + rest;
    assert found[0] == first && forall i :: 0 <= i < |rest| ==> found[i + 1] == rest[i];
    if Covered(rest, p) {
      var i :| 0 <= i < |rest| && rest[i].from <= p < rest[i].to;
      assert found[i + 1].from <= p < found[i + 1].to;
    }
  }

  lemma MatchInFront(s: string, at: nat, rest: seq<Stretch>, matches: seq<nat>, marker: string)
    requires at < |s| && Fit(s, matches) && 0 < matches[at] && AreTheMatches(s, at + matches[at], rest, matches)
    ensures var found := [Stretch(at, at + matches[at])] + rest;
            && AreTheMatches(s, at, found, matches)
            && Spliced(s, at, found, marker) == marker + Spliced(s, at + matches[at], rest, marker)
  {
    hide Covered;
    var found := [Stretch(at, at + matches[at])] + rest;
    assert found[1..] == rest && s[at..at] == "";
    forall p | at <= p < |s| && !Covered(found, p) ensures matches[p] == 0 {
      CoveredBehind(found[0], rest, p);
    }
  }

  lemma CharInFront(s: string, at: nat, found: seq<Stretch>, matches: seq<nat>, marker: string)
    requires at < |s| && |matches| == |s| && matches[at] == 0 && AreTheMatches(s, at + 1, found, matches)
    ensures AreTheMatches(s, at, found, matches)
    ensures Spliced(s, at, found, marker) == [s[at]] + Spliced(s, at + 1, found, marker)
  {
    hide Covered;
    if found == [] {
      assert s[at..] == [s[at]] + s[at + 1..];
    } else {
      var kept, end := s[at + 1..found[0].from], Spliced(s, found[0].to, found[1..], marker);
      assert s[at..found[0].from] == [s[at]] + kept;
      assert [s[at]] + kept + marker + end == [s[at]] + (kept + marker + end);
    }
  }

  lemma ScanReplaces(s: string, matches: seq<nat>, marker: string)
    requires Fit(s, matches)
    ensures Replaced(s, matches, marker, Scanned(s, 0, matches, marker))
  {
    var found := ScanFinds(s, 0, matches, marker);
  }

  // ----- The three substitutions -----

  /** The occurrences of a literal. */
  ghost function PartAt(s: string, part: string): (matches: seq<nat>)
    ensures Fit(s, matches)
  {
    seq(|s|, p requires 0 <= p < |s| => if part <= s[p..] then |part| else 0)
  }

  ghost function DataUrlAt(s: string): (matches: seq<nat>)
    ensures Fit(s, matches)
  {
    seq(|s|, p requires 0 <= p < |s| => DataUrl(s[p..]))
  }

  /** A base64 run is matched only where no character of its class is in front of it. */
  ghost function BlobRunAt(s: string): (matches: seq<nat>)
    ensures Fit(s, matches)
  {
    seq(|s|, p requires 0 <= p < |s| => if p == 0 || !Blob.Has(s[p - 1]) then BlobMatch(s[p..]) else 0)
  }

  lemma PartIsAt(s: string, part: string, p: nat)
    requires p < |s|
    ensures PartAt(s, part)[p] == if part <= s[p..] then |part| else 0
  {
  }

  lemma {:induction false} ReplaceScans(s: string, at: nat, part: string, insert: string)
    requires part != "" && at <= |s|
    ensures ReplaceAll(s[at..], part, insert) == Scanned(s, at, PartAt(s, part), insert)
    decreases |s| - at
  {
    hide PartAt, Fit;
    if at < |s| {
      PartIsAt(s, part, at);
      if part <= s[at..] {
        assert s[at..][|part|..] == s[at + |part|..];
        ReplaceScans(s, at + |part|, part, insert);
      } else {
        assert s[at..][1..] == s[at + 1..];
        ReplaceScans(s, at + 1, part, insert);
      }
    }
  }

  /** Every occurrence of the part, met from left to right, is replaced by the insert, and nothing else is touched. */
  lemma ReplaceAllReplaces(s: string, part: string, insert: string)
    requires part != ""
    ensures Replaced(s, PartAt(s, part), insert, ReplaceAll(s, part, insert))
  {
    assert s[0..] == s;
    ReplaceScans(s, 0, part, insert);
    ScanReplaces(s, PartAt(s, part), insert);
  }

  lemma {:induction false} DataUrlsScan(s: string, at: nat)
    requires at <= |s|
    ensures SubDataUrls(s[at..]) == Scanned(s, at, DataUrlAt(s), REMOVED_BINARY)
    decreases |s| - at
  {
    hide DataUrl;
    if at < |s| {
      var n := DataUrl(s[at..]);
      assert DataUrlAt(s)[at] == n;
      if n > 0 {
        assert s[at..][n..] == s[at + n..];
        DataUrlsScan(s, at + n);
      } else {
        assert s[at..][1..] == s[at + 1..];
        DataUrlsScan(s, at + 1);
      }
    }
  }

  lemma SubDataUrlsReplaces(s: string)
    ensures Replaced(s, DataUrlAt(s), REMOVED_BINARY, SubDataUrls(s))
  {
    hide DataUrl;
    assert s[0..] == s;
    DataUrlsScan(s, 0);
    ScanReplaces(s, DataUrlAt(s), REMOVED_BINARY);
  }

  lemma BlobRunIsAt(s: string, p: nat)
    requires p < |s|
    ensures BlobRunAt(s)[p] == if p == 0 || !Blob.Has(s[p - 1]) then BlobMatch(s[p..]) else 0
  {
  }

  lemma BlobsStep(inRun: bool, s: string)
    requires s != ""
    ensures var n := if inRun then 0 else BlobMatch(s);
            SubBlobs(inRun, s)
            == if n > 0 then REMOVED_BINARY + SubBlobs(Blob.Has(s[n - 1]), s[n..])
               else [s[0]] + SubBlobs(Blob.Has(s[0]), s[1..])
  {
    hide BlobMatch, IsWord;
  }

  lemma {:induction false} BlobsScan(s: string, at: nat)
    requires at <= |s|
    ensures SubBlobs(at > 0 && Blob.Has(s[at - 1]), s[at..]) == Scanned(s, at, BlobRunAt(s), REMOVED_BINARY)
    decreases |s| - at
  {
    hide BlobMatch, IsWord, BlobRunAt, SubBlobs;
    if at < |s| {
      BlobRunIsAt(s, at);
      BlobsStep(at > 0 && Blob.Has(s[at - 1]), s[at..]);
      var n := BlobRunAt(s)[at];
      if n > 0 {
        assert s[at..][n..] == s[at + n..] && s[at..][n - 1] == s[at + n - 1];
        BlobsScan(s, at + n);
      } else {
        assert s[at..][1..] == s[at + 1..];
        BlobsScan(s, at + 1);
      }
    } else {
      NoBlobs();
      assert s[at..] == "";
    }
  }

  lemma NoBlobs()
    ensures SubBlobs(false, "") == "" && SubBlobs(true, "") == ""
  {
  }

  lemma SubBlobsReplaces(s: string)
    ensures Replaced(s, BlobRunAt(s), REMOVED_BINARY, SubBlobs(false, s))
  {
    hide BlobMatch, IsWord;
    assert s[0..] == s;
    BlobsScan(s, 0);
    ScanReplaces(s, BlobRunAt(s), REMOVED_BINARY);
  }

  // ----- Control characters -----

  /** `kept` lists in order exactly the positions of `s` without a control character, and `r` what is there. */
  ghost predicate KeepsTheRest(s: string, r: string, kept: seq<nat>) {
    && |r| == |kept|
    && (forall i :: 0 <= i < |kept| ==> kept[i] < |s| && r[i] == s[kept[i]])
    && (forall i, j :: 0 <= i < j < |kept| ==> kept[i] < kept[j])
    && (forall p :: 0 <= p < |s| ==> (p in kept <==> !IsControl(s[p])))
  }

  lemma {:induction false} DropControlsKeepsTheRest(s: string) returns (kept: seq<nat>)
    ensures KeepsTheRest(s, DropControls(s), kept)
  {
    hide IsControl, KeepsTheRest;
    if s == "" {
      kept := [];
      NothingKept();
    } else {
      var r := DropControls(s[1..]);
      var rest := DropControlsKeepsTheRest(s[1..]);
      kept := seq(|rest|, i requires 0 <= i < |rest| => rest[i] + 1);
      KeptLater(s, r, rest, kept);
      if !IsControl(s[0]) {
        KeptInFront(s, r, kept);
        kept := [0] + kept;
      } else {
        DroppedInFront(s, r, kept);
      }
    }
  }

  lemma NothingKept()
    ensures KeepsTheRest("", "", [])
  {
  }

  /** The positions kept behind the first character. */
  ghost predicate KeepsBehind(s: string, r: string, kept: seq<nat>) {
    && |r| == |kept|
    && (forall i :: 0 <= i < |kept| ==> 0 < kept[i] < |s| && r[i] == s[kept[i]])
    && (forall i, j :: 0 <= i < j < |kept| ==> kept[i] < kept[j])
    && (forall p :: 0 < p < |s| ==> (p in kept <==> !IsControl(s[p])))
  }

  lemma KeptLater(s: string, r: string, rest: seq<nat>, kept: seq<nat>)
    requires s != "" && KeepsTheRest(s[1..], r, rest)
    requires |kept| == |rest| && forall i :: 0 <= i < |rest| ==> kept[i] == rest[i] + 1
    ensures KeepsBehind(s, r, kept)
  {
    hide IsControl;
    forall p | 0 < p < |s| ensures p in kept <==> !IsControl(s[p]) {
      assert s[1..][p - 1] == s[p];
      if p - 1 in rest {
        var i :| 0 <= i < |rest| && rest[i] == p - 1;
        assert kept[i] == p;
      }
    }
  }

  lemma DroppedInFront(s: string, r: string, kept: seq<nat>)
    requires s != "" && IsControl(s[0]) && KeepsBehind(s, r, kept)
    ensures KeepsTheRest(s, r, kept)
  {
    hide IsControl;
  }

  lemma KeptInFront(s: string, r: string, kept: seq<nat>)
    requires s != "" && !IsControl(s[0]) && KeepsBehind(s, r, kept)
    ensures KeepsTheRest(s, [s[0]] + r, [0] + kept)
  {
    hide IsControl;
    assert forall p :: p in [0] + kept <==> p == 0 || p in kept;
  }

  // ----- What the expressions match -----

  /** The class holds from `i` up to `j`. */
  ghost predicate AllIn(cls: CharClass, s: string, i: nat, j: nat) {
    i <= j <= |s| && forall k :: i <= k < j ==> cls.Has(s[k])
  }

  ghost predicate SpelledAt(s: string, i: nat, literal: string) {
    i <= |s| && StartsFolded(s[i..], literal)
  }

  /** Where the media type of a data URL ends. */
  ghost predicate HeadEnds(s: string, h: nat) {
    || (SpelledAt(s, 0, "data:image/") && 11 < h && AllIn(MimeName, s, 11, h))
    || (SpelledAt(s, 0, "data:application/pdf") && h == 20)
  }

  /** A data URL of length `n` at the start of `s`. */
  ghost predicate IsDataUrl(s: string, n: nat) {
    exists h: nat :: HeadEnds(s, h) && SpelledAt(s, h, ";base64,") && h + 8 < n && AllIn(Payload, s, h + 8, n)
  }

  lemma RunIsLongest(s: string, i: nat, j: nat, cls: CharClass)
    requires AllIn(cls, s, i, j)
    ensures j <= i + Run(s[i..], cls)
  {
    hide IsWord;
    var n := Run(s[i..], cls);
    assert n < |s[i..]| ==> s[i..][n] == s[i + n];
  }

  lemma RunIsIn(s: string, i: nat, cls: CharClass)
    requires i <= |s|
    ensures AllIn(cls, s, i, i + Run(s[i..], cls))
  {
    hide IsWord;
    var n := Run(s[i..], cls);
    assert forall k :: i <= k < i + n ==> s[k] == s[i..][k - i];
  }

  lemma HeadIsUnique(s: string, h: nat)
    ensures HeadEnds(s, h) && SpelledAt(s, h, ";base64,") ==> DataHead(s) == h
    ensures DataHead(s) > 0 ==> HeadEnds(s, DataHead(s))
  {
    hide Run;
    assert s[0..] == s;
    if SpelledAt(s, 0, "data:image/") {
      ImageIsNoPdf(s);
      RunIsIn(s, 11, MimeName);
      if HeadEnds(s, h) && SpelledAt(s, h, ";base64,") {
        RunIsLongest(s, 11, h, MimeName);
        assert s[h..][0] == s[h] && s[11..][h - 11] == s[h];
      }
    }
  }

  lemma ImageIsNoPdf(s: string)
    requires StartsFolded(s, "data:image/")
    ensures !StartsFolded(s, "data:application/pdf")
  {
    assert Fold(s[5]) == "data:image/"[5] && "data:application/pdf"[5] == 'a';
  }

  /** The expression for data URLs matches the longest data URL there is. */
  lemma DataUrlIsLongest(s: string)
    ensures DataUrl(s) > 0 ==> IsDataUrl(s, DataUrl(s))
    ensures forall n: nat :: IsDataUrl(s, n) ==> n <= DataUrl(s)
  {
    hide DataHead, Run, HeadEnds, AllIn;
    if DataUrl(s) > 0 {
      var h := DataHead(s);
      HeadIsUnique(s, h);
      RunIsIn(s, h + 8, Payload);
    }
    forall n: nat | IsDataUrl(s, n) ensures n <= DataUrl(s) {
      var h: nat :| HeadEnds(s, h) && SpelledAt(s, h, ";base64,") && h + 8 < n && AllIn(Payload, s, h + 8, n);
      HeadIsUnique(s, h);
      HeadIsPositive(s, h);
      RunIsLongest(s, h + 8, n, Payload);
    }
  }

  lemma HeadIsPositive(s: string, h: nat)
    requires HeadEnds(s, h)
    ensures h > 0
  {
  }

  /** At least 128 characters of the class, at most two equals signs, and no character of the class behind them. */
  ghost predicate IsBlob(s: string, n: nat) {
    exists a: nat :: BLOB_MINIMUM <= a <= n <= a + 2 && AllIn(Blob, s, 0, a) && AllIn(Equals, s, a, n)
                  && (n < |s| ==> !Blob.Has(s[n]))
  }

  /** The expression for base64 runs matches the longest such run. */
  lemma BlobMatchIsLongest(s: string)
    ensures BlobMatch(s) > 0 ==> IsBlob(s, BlobMatch(s))
    ensures forall n: nat :: IsBlob(s, n) ==> n <= BlobMatch(s)
  {
    hide IsWord, Run, BlobMatch;
    if BlobMatch(s) > 0 {
      MatchIsBlob(s);
    }
    forall n: nat | IsBlob(s, n) ensures n <= BlobMatch(s) {
      var a: nat :| BLOB_MINIMUM <= a <= n <= a + 2 && AllIn(Blob, s, 0, a) && AllIn(Equals, s, a, n)
                    && (n < |s| ==> !Blob.Has(s[n]));
      BlobIsMatched(s, a, n);
    }
  }

  lemma MatchIsBlob(s: string)
    requires BlobMatch(s) > 0
    ensures IsBlob(s, BlobMatch(s))
  {
    hide IsWord, Run;
    var run, n := Run(s, Blob), BlobMatch(s);
    assert s[0..] == s;
    RunIsIn(s, 0, Blob);
    RunIsIn(s, run, Equals);
    assert AllIn(Equals, s, run, n);
    EqualsAreOutside(s, n);
  }

  lemma EqualsAreOutside(s: string, n: nat)
    ensures n < |s| && s[n] == '=' ==> !Blob.Has(s[n])
  {
  }

  lemma BlobIsMatched(s: string, a: nat, n: nat)
    requires BLOB_MINIMUM <= a <= n <= a + 2 && AllIn(Blob, s, 0, a) && AllIn(Equals, s, a, n)
    requires n < |s| ==> !Blob.Has(s[n])
    ensures n <= BlobMatch(s)
  {
    hide IsWord, Run;
    assert s[0..] == s;
    RunIsLongest(s, 0, a, Blob);
    RunIsIn(s, 0, Blob);
    EqualsAreOutside(s, a);
    var run := Run(s, Blob);
    assert run == a;
    RunIsLongest(s, a, n, Equals);
  }

  /** The name of a medium at `i`, blanks around its slash. */
  ghost predicate NamesMediumAt(s: string, i: nat) {
    || (SpelledAt(s, i, "image") && exists c: nat :: AllIn(Blank, s, i + 5, c) && SpelledAt(s, c, "/"))
    || (SpelledAt(s, i, "application")
        && exists c: nat, d: nat :: AllIn(Blank, s, i + 11, c) && SpelledAt(s, c, "/")
                       && AllIn(Blank, s, c + 1, d) && SpelledAt(s, d, "pdf"))
  }

  /** A colon at `i` and, behind blanks, the name of a medium. */
  ghost predicate ColonAt(s: string, i: nat) {
    SpelledAt(s, i, ":") && exists b: nat :: AllIn(Blank, s, i + 1, b) && NamesMediumAt(s, b)
  }

  /** A reference to media data at the start of `s`, blanks around its colon. */
  ghost predicate RefersToMedia(s: string) {
    SpelledAt(s, 0, "data") && exists a: nat :: AllIn(Blank, s, 4, a) && ColonAt(s, a)
  }

  /** Blanks up to a literal are all the blanks there are. */
  lemma BlanksEnd(s: string, i: nat)
    requires i <= |s|
    ensures var c := i + Run(s[i..], Blank);
            && AllIn(Blank, s, i, c) && SkipBlank(s[i..]) == s[c..]
            && forall d: nat, literal: string ::
                 AllIn(Blank, s, i, d) && SpelledAt(s, d, literal) && literal != "" && !IsSpace(literal[0]) ==> d == c
  {
    hide IsSpace, Fold;
    var c := i + Run(s[i..], Blank);
    RunIsIn(s, i, Blank);
    forall d: nat, literal: string
      | AllIn(Blank, s, i, d) && SpelledAt(s, d, literal) && literal != "" && !IsSpace(literal[0])
      ensures d == c
    {
      RunIsLongest(s, i, d, Blank);
      assert s[d..][0] == s[d];
      FoldedIsNotBlank(s[d], literal[0]);
    }
  }

  /** A literal, blanks, and another. */
  lemma LiteralIsSpelled(s: string, i: nat, first: string, second: string)
    requires i <= |s| && second != "" && !IsSpace(second[0])
    ensures var t := AfterLiteral(s[i..], first);
            t.Some? && StartsFolded(t.value, second)
            <==> SpelledAt(s, i, first) && exists c: nat :: AllIn(Blank, s, i + |first|, c) && SpelledAt(s, c, second)
  {
    hide Fold, Run, SkipBlank, AllIn;
    if SpelledAt(s, i, first) {
      var from := i + |first|;
      assert s[i..][|first|..] == s[from..];
      BlanksEnd(s, from);
      var c := from + Run(s[from..], Blank);
      if StartsFolded(SkipBlank(s[from..]), second) {
        assert AllIn(Blank, s, from, c) && SpelledAt(s, c, second);
      }
      if exists d: nat :: AllIn(Blank, s, from, d) && SpelledAt(s, d, second) {
        var d: nat :| AllIn(Blank, s, from, d) && SpelledAt(s, d, second);
        assert d == c;
      }
    }
  }

  lemma PdfIsSpelled(s: string, i: nat)
    requires i <= |s|
    ensures var c := AfterLiteral(s[i..], "application");
            (c.Some? && (var d := AfterLiteral(c.value, "/"); d.Some? && StartsFolded(d.value, "pdf")))
            <==> (SpelledAt(s, i, "application")
                  && exists c: nat, d: nat :: AllIn(Blank, s, i + 11, c) && SpelledAt(s, c, "/")
                                           && AllIn(Blank, s, c + 1, d) && SpelledAt(s, d, "pdf"))
  {
    hide Fold, Run, SkipBlank, AllIn;
    if SpelledAt(s, i, "application") {
      assert s[i..][11..] == s[i + 11..];
      BlanksEnd(s, i + 11);
      LiteralIsSpelled(s, i + 11 + Run(s[i + 11..], Blank), "/", "pdf");
    }
  }

  lemma MediaNameIsSpelled(s: string, i: nat)
    requires i <= |s|
    ensures MediaName(s[i..]) <==> NamesMediumAt(s, i)
  {
    hide Fold, Run, SkipBlank, AllIn, AfterLiteral;
    LiteralIsSpelled(s, i, "image", "/");
    PdfIsSpelled(s, i);
  }

  lemma NamesBegin(s: string)
    ensures forall d: nat :: NamesMediumAt(s, d) ==> SpelledAt(s, d, "image") || SpelledAt(s, d, "application")
  {
  }

  lemma ColonIsSpelled(s: string, i: nat)
    requires i <= |s|
    ensures var b := AfterLiteral(s[i..], ":");
            b.Some? && MediaName(b.value) <==> ColonAt(s, i)
  {
    hide Fold, Run, SkipBlank, AllIn, MediaName, NamesMediumAt;
    if SpelledAt(s, i, ":") {
      var from := i + 1;
      assert s[i..][1..] == s[from..];
      BlanksEnd(s, from);
      var b := from + Run(s[from..], Blank);
      MediaNameIsSpelled(s, b);
      NamesBegin(s);
      if exists d: nat :: AllIn(Blank, s, from, d) && NamesMediumAt(s, d) {
        var d: nat :| AllIn(Blank, s, from, d) && NamesMediumAt(s, d);
        assert d == b;
      }
    }
  }

  /** The expression for references to media data matches exactly those. */
  lemma ReferenceIsSpelled(s: string)
    ensures MediaReference(s) <==> RefersToMedia(s)
  {
    hide Fold, Run, SkipBlank, AllIn, MediaName, NamesMediumAt;
    assert s[0..] == s;
    if StartsFolded(s, "data") {
      BlanksEnd(s, 4);
      var a := 4 + Run(s[4..], Blank);
      ColonIsSpelled(s, a);
      assert forall d: nat :: ColonAt(s, d) ==> SpelledAt(s, d, ":");
      if exists d: nat :: AllIn(Blank, s, 4, d) && ColonAt(s, d) {
        var d: nat :| AllIn(Blank, s, 4, d) && ColonAt(s, d);
        assert d == a;
      }
    }
  }

  // ----- The whole sanitizer -----

  /** What becomes of a text step by step: `steps` after the control characters and after each locator. */
  ghost predicate RemovesLocators(locators: seq<string>, steps: seq<string>) {
    && |steps| == |locators| + 1
    && forall i :: 0 <= i < |locators| ==>
         Replaced(steps[i], PartAt(steps[i], locators[i]), REMOVED_REFERENCE, steps[i + 1])
  }

  lemma {:induction false} LocatorsAreReplaced(s: string, locators: seq<string>) returns (steps: seq<string>)
    requires "" !in locators
    ensures RemovesLocators(locators, steps) && steps[0] == s && steps[|locators|] == RemoveLocators(s, locators)
    decreases |locators|
  {
    hide ReplaceAll, Replaced, PartAt;
    if locators == [] {
      steps := [s];
    } else {
      ReplaceAllReplaces(s, locators[0], REMOVED_REFERENCE);
      var rest := LocatorsAreReplaced(ReplaceAll(s, locators[0], REMOVED_REFERENCE), locators[1..]);
      steps := [s] + rest;
      assert forall i :: 1 <= i < |locators| ==>
          steps[i] == rest[i - 1] && steps[i + 1] == rest[i] && locators[i] == locators[1..][i - 1];
    }
  }

  /**
   * Rewriting loses only what it is meant to remove: the control characters, then every occurrence of each locator,
   * then the data URLs, then the base64 runs, each of them replaced by its marker; and blanks at both ends.
   */
  lemma RewriteReplaces(uni: Unicode, text: string, locators: seq<string>)
    returns (kept: seq<nat>, steps: seq<string>, withoutUrls: string, withoutRuns: string, a: nat, b: nat)
    requires "" !in locators
    ensures RemovesLocators(locators, steps) && KeepsTheRest(uni.nfkc(text), steps[0], kept)
    ensures Replaced(steps[|locators|], DataUrlAt(steps[|locators|]), REMOVED_BINARY, withoutUrls)
    ensures Replaced(withoutUrls, BlobRunAt(withoutUrls), REMOVED_BINARY, withoutRuns)
    ensures a <= b <= |withoutRuns| && Rewrite(uni, text, locators) == withoutRuns[a..b]
    ensures Trimmed(withoutRuns[a..b]) && forall k :: 0 <= k < a || b <= k < |withoutRuns| ==> IsSpace(withoutRuns[k])
  {
    hide Replaced, PartAt, DataUrlAt, BlobRunAt, DropControls, RemoveLocators, SubDataUrls, SubBlobs, Strip;
    hide RemovesLocators, KeepsTheRest, IsSpace, Trimmed;
    kept := DropControlsKeepsTheRest(uni.nfkc(text));
    steps := LocatorsAreReplaced(DropControls(uni.nfkc(text)), locators);
    LengthOfSteps(locators, steps);
    var s := steps[|locators|];
    withoutUrls, withoutRuns := SubDataUrls(s), SubBlobs(false, SubDataUrls(s));
    SubDataUrlsReplaces(s);
    SubBlobsReplaces(withoutUrls);
    a, b := StripCuts(withoutRuns);
  }

  lemma LengthOfSteps(locators: seq<string>, steps: seq<string>)
    requires RemovesLocators(locators, steps)
    ensures |steps| == |locators| + 1
  {
  }

  ghost predicate RefersAnywhere(s: string) {
    exists i: nat :: i <= |s| && RefersToMedia(s[i..])
  }

  /** The text without its markers. */
  ghost predicate WithoutMarkers(s: string, between: string, rest: string) {
    && Replaced(s, PartAt(s, REMOVED_REFERENCE), "", between)
    && Replaced(between, PartAt(between, REMOVED_BINARY), "", rest)
  }

  /**
   * A rewritten text is accepted exactly when it fits, holds no locator and no reference to media data, and still says
   * something besides its markers; the first of these that fails is the reason it is refused for.
   */
  lemma SanitizesExactly(uni: Unicode, text: string, locators: seq<string>, maxLength: nat)
    returns (between: string, rest: string)
    requires "" !in locators
    ensures var s, r := Rewrite(uni, text, locators), Sanitize(uni, text, locators, maxLength);
            var fits, clean := |s| <= maxLength, forall l :: l in locators ==> !Contains(s, l);
            && WithoutMarkers(s, between, rest)
            && (r.Ok? ==> r.value == s)
            && (r == Err(TooLong) <==> !fits)
            && (r == Err(LocatorRemains) <==> fits && !clean)
            && (r == Err(MediaReferenceRemains) <==> fits && clean && RefersAnywhere(s))
            && (r == Err(NoSafeText) <==>
                  fits && clean && !RefersAnywhere(s) && forall c :: c in rest ==> !uni.isAlnum(c))
            && (r.Ok? <==> fits && clean && !RefersAnywhere(s) && exists c :: c in rest && uni.isAlnum(c))
  {
    hide Rewrite, Replaced, PartAt, MediaReference, RefersToMedia, NoDataUrl, NoBlob, Contains, ReplaceAll;
    var s := Rewrite(uni, text, locators);
    OnePassIsComplete(uni, text, locators, maxLength);
    between := ReplaceAll(s, REMOVED_REFERENCE, "");
    rest := ReplaceAll(between, REMOVED_BINARY, "");
    ReplaceAllReplaces(s, REMOVED_REFERENCE, "");
    ReplaceAllReplaces(between, REMOVED_BINARY, "");
    forall i: nat | i <= |s| ensures MediaReference(s[i..]) <==> RefersToMedia(s[i..]) {
      ReferenceIsSpelled(s[i..]);
    }
  }
}
