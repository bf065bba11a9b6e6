/**
 * How a message body is displayed (App.tsx, MessageContent): the markdown
 * markers '*' and '_' are deleted, then the text is split around the site
 * address and the contact phone number, which become links.
 */
module Rendering {
  import opened Types
  import opened Text
  import Catalog

  predicate IsMarkup(c: char)
  {
    c == '*' || c == '_'
  }

  /**
   * `content.replace(/[*_]/g, '')`: no marker is left, and every other
   * character is kept exactly as many times as it occurred.
   */
  function StripMarkup(s: string): (r: string)
    ensures forall i :: 0 <= i < |r| ==> !IsMarkup(r[i])
    ensures forall c :: !IsMarkup(c) ==> multiset(r)[c] == multiset(s)[c]
  {
    if s == [] then []
    else if IsMarkup(s[0]) then
      assert s == [s[0]] + s[1..];
      StripMarkup(s[1..])
    else
      assert s == [s[0]] + s[1..];
      [s[0]] + StripMarkup(s[1..])
  }

  /** Stripping works piece by piece, so the kept characters stay in their order. */
  lemma {:induction false} StripMarkupAppend(a: string, b: string)
    ensures StripMarkup(a + b) == StripMarkup(a) + StripMarkup(b)
  {
    if a == [] {
      assert a + b == b;
    } else {
      assert (a + b)[1..] == a[1..] + b;
      StripMarkupAppend(a[1..], b);
    }
  }

  /** A text is left unchanged exactly when it holds no marker. */
  lemma {:induction false} StripMarkupFixedPoint(s: string)
    ensures StripMarkup(s) == s <==> forall i :: 0 <= i < |s| ==> !IsMarkup(s[i])
  {
    if forall i :: 0 <= i < |s| ==> !IsMarkup(s[i]) {
      NoMarkupUnchanged(s);
    }
  }

  lemma {:induction false} NoMarkupUnchanged(s: string)
    requires forall i :: 0 <= i < |s| ==> !IsMarkup(s[i])
    ensures StripMarkup(s) == s
  {
    if s != [] {
      assert forall i :: 0 <= i < |s[1..]| ==> !IsMarkup(s[1..][i]);
      NoMarkupUnchanged(s[1..]);
      assert s == [s[0]] + s[1..];
    }
  }

  lemma {:induction false} StripMarkupShorter(s: string)
    ensures |StripMarkup(s)| <= |s|
  {
    if s != [] {
      StripMarkupShorter(s[1..]);
    }
  }

  /** Stripping twice is stripping once. */
  lemma StripMarkupIdempotent(s: string)
    ensures StripMarkup(StripMarkup(s)) == StripMarkup(s)
  {
    StripMarkupFixedPoint(StripMarkup(s));
  }

  // ---------------------------------------------------------------------------
  // `clean.split(/(www\.nomadetech\.digital|\+221777867118)/g)`: because the
  // pattern has a capture group, every match is kept as a part of its own,
  // between the (possibly empty) texts around it.

  /** The link text that the pattern matches at index `i` of `s`, if any (first alternative first). */
  function LinkAt(s: string, i: nat): Option<string>
  {
    if OccursAt(s, i, Catalog.SiteUrl) then Some(Catalog.SiteUrl)
    else if OccursAt(s, i, Catalog.ContactPhone) then Some(Catalog.ContactPhone)
    else None
  }

  predicate IsLinkText(p: string)
  {
    p == Catalog.SiteUrl || p == Catalog.ContactPhone
  }

  /** No link text occurs anywhere in `p`. */
  predicate LinkFree(p: string)
  {
    forall j :: 0 <= j <= |p| ==> LinkAt(p, j) == None
  }

  /**
   * The scan behind the split: `start` is where the current text part began,
   * `i` the index being tried; at each index the pattern either matches, closing
   * the text part and emitting the link, or the scan moves one character on.
   */
  function SplitFrom(s: string, start: nat, i: nat): seq<string>
    requires start <= i <= |s|
    decreases |s| - i, |s| - start
  {
    if i == |s| then [s[start..]]
    else match LinkAt(s, i)
      case Some(link) => [s[start..i], link] + SplitFrom(s, i + |link|, i + |link|)
      case None => SplitFrom(s, start, i + 1)
  }

  function SplitLinks(s: string): seq<string>
  {
    SplitFrom(s, 0, 0)
  }

  /** The parts glued back together, in order. */
  function Concat(parts: seq<string>): string
  {
    if parts == [] then [] else parts[0] + Concat(parts[1..])
  }

  /** A match found by the pattern is an occurrence of a non-empty link text. */
  lemma LinkAtOccurs(s: string, i: nat)
    ensures LinkAt(s, i).Some? ==> OccursAt(s, i, LinkAt(s, i).value) && IsLinkText(LinkAt(s, i).value)
    ensures LinkAt(s, i).Some? ==> |LinkAt(s, i).value| > 0
  {
  }

  lemma ConcatTwoThenRest(x: string, y: string, rest: seq<string>)
    ensures Concat([x, y] + rest) == x + (y + Concat(rest))
  {
    var parts := [x, y] + rest;
    assert parts[1..] == [y] + rest;
    assert ([y] + rest)[1..] == rest;
  }

  /** A text cut around an occurrence of `t`: before it, `t`, after it. */
  lemma SliceAround(s: string, start: nat, i: nat, t: string)
    requires start <= i && OccursAt(s, i, t)
    ensures s[start..] == s[start..i] + (t + s[i + |t|..])
  {
    assert s[start..] == s[start..i] + (s[i..i + |t|] + s[i + |t|..]);
  }

  lemma {:induction false} SplitFromJoin(s: string, start: nat, i: nat)
    requires start <= i <= |s|
    ensures Concat(SplitFrom(s, start, i)) == s[start..]
    decreases |s| - i, |s| - start
  {
    if i < |s| {
      var m := LinkAt(s, i);
      LinkAtOccurs(s, i);
      if m.Some? {
        var link := m.value;
        var rest := SplitFrom(s, i + |link|, i + |link|);
        assert SplitFrom(s, start, i) == [s[start..i], link] + rest;
        SplitFromJoin(s, i + |link|, i + |link|);
        ConcatTwoThenRest(s[start..i], link, rest);
        SliceAround(s, start, i, link);
      } else {
        SplitFromJoin(s, start, i + 1);
      }
    } else {
      assert s[start..] == s[start..|s|];
    }
  }

  /** Splitting loses nothing: the parts concatenate back to the text. */
  lemma SplitLinksJoin(s: string)
    ensures Concat(SplitLinks(s)) == s
  {
    SplitFromJoin(s, 0, 0);
    assert s[0..] == s;
  }

  /** The pattern matched nowhere from `start` up to (not including) `end`. */
  predicate NoMatchBetween(s: string, start: nat, end: nat)
  {
    forall j :: start <= j < end ==> LinkAt(s, j) == None
  }

  /** An occurrence inside a slice is an occurrence in the whole text. */
  lemma OccursInSlice(s: string, start: nat, end: nat, j: nat, t: string)
    requires start <= end <= |s|
    requires OccursAt(s[start..end], j, t)
    ensures OccursAt(s, start + j, t)
  {
    var inner, outer := s[start..end][j..j + |t|], s[start + j..start + j + |t|];
    forall k | 0 <= k < |t| ensures inner[k] == outer[k] {
    }
    assert s[start..end][j..j + |t|] == s[start + j..start + j + |t|];
  }

  /** A text part the scan closed holds no link text. */
  lemma TextPartLinkFree(s: string, start: nat, end: nat)
    requires start <= end <= |s|
    requires NoMatchBetween(s, start, end)
    ensures LinkFree(s[start..end])
  {
    var p := s[start..end];
    forall j | 0 <= j <= |p| ensures LinkAt(p, j) == None {
      LinkAtOccurs(p, j);
      if LinkAt(p, j).Some? {
        var link := LinkAt(p, j).value;
        OccursInSlice(s, start, end, j, link);
        LinkAtOccurs(s, start + j);
        assert false;
      }
    }
  }

  /** The parts alternate: text parts (even indices) hold no link, link parts (odd indices) are links. */
  predicate Alternates(parts: seq<string>)
  {
    && |parts| % 2 == 1
    && (forall k :: 0 <= k < |parts| && k % 2 == 1 ==> IsLinkText(parts[k]))
    && (forall k :: 0 <= k < |parts| && k % 2 == 0 ==> LinkFree(parts[k]))
  }

  /** A link-free text and a link in front of alternating parts still alternate. */
  lemma AlternatesPrepend(text: string, link: string, rest: seq<string>)
    requires LinkFree(text) && IsLinkText(link) && Alternates(rest)
    ensures Alternates([text, link] + rest)
  {
    var parts := [text, link] + rest;
    forall k | 0 <= k < |parts| && k % 2 == 1 ensures IsLinkText(parts[k]) {
      if k >= 2 { assert parts[k] == rest[k - 2]; }
    }
    forall k | 0 <= k < |parts| && k % 2 == 0 ensures LinkFree(parts[k]) {
      if k >= 2 { assert parts[k] == rest[k - 2]; }
    }
  }

  lemma {:induction false} SplitFromAlternates(s: string, start: nat, i: nat)
    requires start <= i <= |s|
    requires NoMatchBetween(s, start, i)
    ensures Alternates(SplitFrom(s, start, i))
    decreases |s| - i, |s| - start
  {
    if i == |s| {
      TextPartLinkFree(s, start, |s|);
      assert s[start..] == s[start..|s|];
    } else {
      match LinkAt(s, i)
      case Some(link) =>
        var rest := SplitFrom(s, i + |link|, i + |link|);
        SplitFromAlternates(s, i + |link|, i + |link|);
        TextPartLinkFree(s, start, i);
        AlternatesPrepend(s[start..i], link, rest);
      case None =>
        SplitFromAlternates(s, start, i + 1);
    }
  }

  /** The split alternates text parts free of links with the link texts themselves. */
  lemma SplitLinksAlternates(s: string)
    ensures Alternates(SplitLinks(s))
  {
    SplitFromAlternates(s, 0, 0);
  }

  // ---------------------------------------------------------------------------
  // What each part becomes on screen.

  datatype Segment = SiteLink(text: string) | PhoneLink(text: string) | Plain(text: string)

  /** A part equal to the site address is a link to the site, one equal to the phone number a `tel:` link. */
  function Classify(part: string): Segment
  {
    if part == Catalog.SiteUrl then SiteLink(part)
    else if part == Catalog.ContactPhone then PhoneLink(part)
    else Plain(part)
  }

  /** The segments a message body is displayed as. */
  function MessageContent(content: string): seq<Segment>
  {
    var parts := SplitLinks(StripMarkup(content));
    seq(|parts|, k requires 0 <= k < |parts| => Classify(parts[k]))
  }

  function SegmentTexts(segments: seq<Segment>): seq<string>
  {
    seq(|segments|, k requires 0 <= k < |segments| => segments[k].text)
  }

  /**
   * What a message displays is exactly its stripped body, with no marker left,
   * and its segments are links exactly at the odd positions.
   */
  lemma MessageContentShowsCleanText(content: string)
    ensures Concat(SegmentTexts(MessageContent(content))) == StripMarkup(content)
    ensures forall k :: 0 <= k < |MessageContent(content)| ==>
              (MessageContent(content)[k].Plain? <==> k % 2 == 0)
  {
    var clean := StripMarkup(content);
    var parts := SplitLinks(clean);
    var segments := MessageContent(content);
    SplitLinksJoin(clean);
    SplitLinksAlternates(clean);
    assert SegmentTexts(segments) == parts;
    forall k | 0 <= k < |segments| ensures segments[k].Plain? <==> k % 2 == 0 {
      assert segments[k] == Classify(parts[k]);
      if k % 2 == 0 {
        LinkFreeIsPlain(parts[k]);
      }
    }
  }

  /** A part holding no link text is shown as plain text. */
  lemma LinkFreeIsPlain(p: string)
    requires LinkFree(p)
    ensures Classify(p).Plain?
  {
    assert LinkAt(p, 0) == None;
    assert OccursAt(Catalog.SiteUrl, 0, Catalog.SiteUrl);
    assert OccursAt(Catalog.ContactPhone, 0, Catalog.ContactPhone);
  }
}
