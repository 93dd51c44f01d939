/**
 From a raw model answer to its voting key (crates/consensus/src/tmr_consensus.rs,
 strip_markdown_fences and compute_canonical_key_sync). The JSON parser and the two hash functions
 are parameters.
 */
module CanonicalKey {
  import opened Json
  import opened CanonicalJson
  import opened Basics

  // ----- Trimming and fences ----------------------------------------------------------------

  /** The Unicode White_Space property. */
  predicate IsSpace(c: char) {
    || '\t' <= c <= '\r' || c == ' ' || c == '\U{85}' || c == '\U{A0}' || c == '\U{1680}'
    || '\U{2000}' <= c <= '\U{200A}' || c == '\U{2028}' || c == '\U{2029}' || c == '\U{202F}'
    || c == '\U{205F}' || c == '\U{3000}'
  }

  predicate Blank(s: string) { forall i :: 0 <= i < |s| ==> IsSpace(s[i]) }

  function TrimStart(s: string): string {
    if s != "" && IsSpace(s[0]) then TrimStart(s[1..]) else s
  }

  function TrimEnd(s: string): string {
    if s != "" && IsSpace(s[|s| - 1]) then TrimEnd(s[..|s| - 1]) else s
  }

  function Trim(s: string): string { TrimEnd(TrimStart(s)) }

  const FENCE: string := "```"
  const TAGGED_FENCE: string := "```json"
  const TAG: string := "json"

  /** The last position at or before `k` where a fence starts, or -1. */
  function LastFence(s: string, k: int): int
    requires -1 <= k <= |s|
    ensures -1 <= LastFence(s, k) <= k
    decreases k + 1
  {
    if k < 0 then -1 else if FENCE <= s[k..] then k else LastFence(s, k - 1)
  }

  function StripFences(response: string): string {
    var s := Trim(response);
    if FENCE <= s then
      var body := TrimStart(if TAGGED_FENCE <= s then s[|TAGGED_FENCE|..] else s[|FENCE|..]);
      var close := LastFence(body, |body|);
      if close >= 0 then Trim(body[..close]) else body
    else s
  }

  lemma {:induction false} TrimStartBlank(pad: string, s: string)
    requires Blank(pad)
    ensures TrimStart(pad + s) == TrimStart(s)
  {
    if pad == "" {
      assert pad + s == s;
    } else {
      assert (pad + s)[1..] == pad[1..] + s;
      TrimStartBlank(pad[1..], s);
    }
  }

  lemma {:induction false} TrimEndBlank(s: string, pad: string)
    requires Blank(pad)
    ensures TrimEnd(s + pad) == TrimEnd(s)
  {
    if pad == "" {
      assert s + pad == s;
    } else {
      assert (s + pad)[..|s + pad| - 1] == s + pad[..|pad| - 1];
      TrimEndBlank(s, pad[..|pad| - 1]);
    }
  }

  /** Trimming the end leaves a text that starts with a visible character starting with it. */
  lemma {:induction false} TrimEndKeepsStart(s: string)
    requires s != "" && !IsSpace(s[0])
    ensures TrimEnd(s) != "" && TrimEnd(s)[0] == s[0]
    ensures TrimEnd(TrimEnd(s)) == TrimEnd(s)
  {
    if IsSpace(s[|s| - 1]) { TrimEndKeepsStart(s[..|s| - 1]); }
  }

  /** Trimming the end stops at a visible character. */
  lemma {:induction false} TrimEndTail(s: string, after: string) returns (tail: string)
    requires s != "" && !IsSpace(s[|s| - 1])
    ensures TrimEnd(s + after) == s + tail && tail <= after
    decreases |after|
  {
    if after == "" || !IsSpace(after[|after| - 1]) {
      assert (s + after)[|s + after| - 1] == if after == "" then s[|s| - 1] else after[|after| - 1];
      tail := after;
    } else {
      assert (s + after)[..|s + after| - 1] == s + after[..|after| - 1];
      tail := TrimEndTail(s, after[..|after| - 1]);
    }
  }

  // ----- Wrapped copies of one body -----------------------------------------------------------

  /** The ways providers dress up an answer: with white space, or fenced, with anything but more fences after
      the closing fence, or with a fence that is never closed. */
  datatype Wrapping =
    | Padded(before: string, after: string)
    | Fenced(before: string, tagged: bool, open: string, close: string, after: string)
    | Unclosed(before: string, tagged: bool, open: string, after: string)
  {
    predicate Valid() {
      && Blank(before)
      && (Padded? || Unclosed? ==> Blank(after))
      && (Fenced? || Unclosed? ==> Blank(open))
      && (Fenced? ==> Blank(close) && '`' !in after)
    }

    function Fence(): string
      requires !Padded?
    {
      if tagged then TAGGED_FENCE else FENCE
    }

    function Wrap(body: string): string {
      match this
      case Padded(before, after) => before + body + after
      case Fenced(before, _, open, close, after) => before + (Fence() + open + body + close + FENCE) + after
      case Unclosed(before, _, open, after) => before + (Fence() + open + body) + after
    }

    /** The wrapping can be told from the body: an unfenced body starts with no fence, one right after an
        untagged fence does not start like the tag, and one without a closing fence holds none itself. */
    predicate Fits(body: string) {
      && Visible(body)
      && (Padded? ==> !(FENCE <= body))
      && (!Padded? && !tagged && open == "" ==> !(TAG <= body))
      && (Unclosed? ==> '`' !in body)
    }
  }

  /** The body starts with a visible character. */
  predicate Visible(body: string) { body != "" && !IsSpace(body[0]) }

  predicate LooksLikeJson(s: string) { s != "" && (s[0] == '{' || s[0] == '[') }

  lemma TrimPadded(before: string, s: string, after: string)
    requires Blank(before) && Blank(after) && Visible(s)
    ensures Trim(before + s + after) == TrimEnd(s)
  {
    assert before + s + after == before + (s + after);
    TrimStartBlank(before, s + after);
    assert (s + after)[0] == s[0];
    TrimEndBlank(s, after);
  }

  lemma FenceChars(s: string)
    requires FENCE <= s
    ensures |s| >= 3 && s[0] == '`' && s[2] == '`'
  {
    assert s[0] == FENCE[0] && s[2] == FENCE[2];
  }

  /** What stands after the fence `s + FENCE` holds no other. */
  lemma {:induction false} ClosingFenceIsLast(s: string, tail: string, k: nat)
    requires '`' !in tail && |s| <= k <= |s + FENCE + tail|
    ensures LastFence(s + FENCE + tail, k) == |s|
    decreases k
  {
    var t := s + FENCE + tail;
    if k == |s| {
      assert t[k..] == FENCE + tail;
    } else {
      if FENCE <= t[k..] {
        FenceChars(t[k..]);
        assert false;
      }
      ClosingFenceIsLast(s, tail, k - 1);
    }
  }

  lemma {:induction false} NoFence(s: string, k: int)
    requires '`' !in s && -1 <= k <= |s|
    ensures LastFence(s, k) == -1
    decreases k + 1
  {
    if k >= 0 {
      if FENCE <= s[k..] {
        FenceChars(s[k..]);
        assert false;
      }
      NoFence(s, k - 1);
    }
  }

  /** Inside the fences: body, trailing pad and closing fence reduce to the body. */
  lemma FencedBody(body: string, close: string, tail: string)
    requires Blank(close) && Visible(body) && '`' !in tail
    ensures var rest := body + close + FENCE + tail;
            LastFence(rest, |rest|) == |body + close| && Trim(rest[..|body + close|]) == TrimEnd(body)
  {
    var rest := body + close + FENCE + tail;
    ClosingFenceIsLast(body + close, tail, |rest|);
    assert rest[..|body + close|] == "" + body + close;
    TrimPadded("", body, close);
  }

  lemma TrimStartOpen(open: string, rest: string)
    requires Blank(open) && Visible(rest)
    ensures TrimStart(open + rest) == rest
  {
    TrimStartBlank(open, rest);
  }

  /** Which opening fence is recognised: after an untagged one comes a blank or the body, never "json". */
  lemma OpeningFence(tagged: bool, inner: string)
    requires tagged || !(TAG <= inner)
    ensures var fence := if tagged then TAGGED_FENCE else FENCE;
            && FENCE <= fence + inner && (fence + inner)[|fence|..] == inner
            && (TAGGED_FENCE <= fence + inner <==> tagged)
  {
    var fence := if tagged then TAGGED_FENCE else FENCE;
    assert (fence + inner)[|fence|..] == inner;
    PrefixShift(FENCE, TAG, inner);
    assert TAGGED_FENCE == FENCE + TAG;
  }

  lemma PrefixShift(p: string, a: string, b: string)
    ensures p + a <= p + b <==> a <= b
  {
    assert (p + b)[|p|..] == b && (p + a)[|p|..] == a;
  }

  /** The tag is not put together from the end of a body and what follows it. */
  lemma TagInside(body: string, next: string)
    requires next == "" || IsSpace(next[0]) || next[0] == '`'
    ensures TAG <= body + next ==> TAG <= body
  {
    if |body| < |TAG| && next != "" { assert (body + next)[|body|] == next[0]; }
  }

  /** What is left of a text that starts with a fence. */
  lemma AfterFence(tagged: bool, open: string, rest: string)
    requires Blank(open) && Visible(rest) && (tagged || open != "" || !(TAG <= rest))
    ensures var s := (if tagged then TAGGED_FENCE else FENCE) + (open + rest);
            && FENCE <= s && TrimStart(if TAGGED_FENCE <= s then s[|TAGGED_FENCE|..] else s[|FENCE|..]) == rest
  {
    if open == "" { assert open + rest == rest; } else { assert (open + rest)[0] == open[0]; }
    OpeningFence(tagged, open + rest);
    TrimStartOpen(open, rest);
  }

  lemma TrimFenced(before: string, s: string, after: string) returns (tail: string)
    requires Blank(before) && Visible(s) && !IsSpace(s[|s| - 1])
    ensures Trim(before + s + after) == s + tail && tail <= after
  {
    tail := TrimEndTail(s, after);
    assert before + s + after == before + (s + after);
    TrimStartBlank(before, s + after);
    assert (s + after)[0] == s[0];
  }

  /** The steps of `StripFences` on a text that starts with a fence. */
  lemma Strips(response: string, tagged: bool, open: string, rest: string)
    requires Blank(open) && Visible(rest) && (tagged || open != "" || !(TAG <= rest))
    requires Trim(response) == (if tagged then TAGGED_FENCE else FENCE) + (open + rest)
    ensures var close := LastFence(rest, |rest|);
            StripFences(response) == if close >= 0 then Trim(rest[..close]) else rest
  {
    AfterFence(tagged, open, rest);
  }

  lemma FencedText(fence: string, open: string, body: string, close: string, tail: string)
    ensures fence + open + body + close + FENCE + tail == fence + (open + (body + close + FENCE + tail))
  {
  }

  lemma FencedEnds(fence: string, inner: string)
    requires fence == FENCE || fence == TAGGED_FENCE
    ensures var s := fence + inner + FENCE; s[0] == '`' && s[|s| - 1] == '`'
  {
  }

  lemma TrimOfFenced(w: Wrapping, body: string) returns (tail: string)
    requires w.Fenced? && w.Valid()
    ensures Trim(w.Wrap(body)) == w.Fence() + (w.open + (body + w.close + FENCE + tail)) && '`' !in tail
  {
    var s := w.Fence() + w.open + body + w.close + FENCE;
    FencedEnds(w.Fence(), w.open + body + w.close);
    assert s == w.Fence() + (w.open + body + w.close) + FENCE;
    tail := TrimFenced(w.before, s, w.after);
    FencedText(w.Fence(), w.open, body, w.close, tail);
    assert forall i :: 0 <= i < |tail| ==> tail[i] == w.after[i];
  }

  lemma NoNewTag(body: string, close: string, tail: string)
    requires Blank(close) && Visible(body)
    ensures var rest := body + close + FENCE + tail; Visible(rest) && (TAG <= rest ==> TAG <= body)
  {
    var next := close + FENCE + tail;
    assert body + close + FENCE + tail == body + next;
    assert next[0] == if close == "" then '`' else close[0];
    TagInside(body, next);
    VisibleStart(body, next);
  }

  lemma StripFenced(w: Wrapping, body: string)
    requires w.Fenced? && w.Valid() && w.Fits(body)
    ensures StripFences(w.Wrap(body)) == TrimEnd(body)
  {
    var tail := TrimOfFenced(w, body);
    var rest := body + w.close + FENCE + tail;
    NoNewTag(body, w.close, tail);
    Strips(w.Wrap(body), w.tagged, w.open, rest);
    FencedBody(body, w.close, tail);
  }

  lemma {:induction false} TrimEndVisible(s: string, body: string)
    requires Visible(body)
    ensures TrimEnd(s + body) == s + TrimEnd(body)
    decreases |body|
  {
    assert (s + body)[|s + body| - 1] == body[|body| - 1];
    if IsSpace(body[|body| - 1]) {
      assert (s + body)[..|s + body| - 1] == s + body[..|body| - 1];
      TrimEndVisible(s, body[..|body| - 1]);
    }
  }

  lemma {:induction false} TrimEndPrefix(s: string)
    ensures TrimEnd(s) <= s
  {
    if s != "" && IsSpace(s[|s| - 1]) { TrimEndPrefix(s[..|s| - 1]); }
  }

  lemma Regroup(a: string, b: string, c: string)
    ensures a + b + c == a + (b + c)
  {
  }

  lemma VisibleStart(a: string, b: string)
    requires Visible(a)
    ensures Visible(a + b)
  {
  }

  lemma TrimOfUnclosed(before: string, fence: string, open: string, body: string, after: string)
    requires Visible(fence) && Blank(before) && Blank(after) && Visible(body)
    ensures Trim(before + (fence + open + body) + after) == fence + (open + TrimEnd(body))
  {
    var front := fence + open;
    VisibleStart(fence, open);
    VisibleStart(front, body);
    TrimPadded(before, front + body, after);
    TrimEndVisible(front, body);
    Regroup(fence, open, TrimEnd(body));
  }

  lemma StripUnclosed(w: Wrapping, body: string)
    requires w.Unclosed? && w.Valid() && w.Fits(body)
    ensures StripFences(w.Wrap(body)) == TrimEnd(body)
  {
    var text := TrimEnd(body);
    TrimOfUnclosed(w.before, w.Fence(), w.open, body, w.after);
    TrimEndKeepsStart(body);
    TrimEndPrefix(body);
    assert TAG <= text ==> TAG <= body;
    Strips(w.Wrap(body), w.tagged, w.open, text);
    assert forall i :: 0 <= i < |text| ==> text[i] == body[i];
    NoFence(text, |text|);
  }

  /** Every wrapping of a body strips down to the same text. */
  lemma StripUnwraps(w: Wrapping, body: string)
    requires w.Valid() && w.Fits(body)
    ensures StripFences(w.Wrap(body)) == TrimEnd(body)
  {
    match w
    case Padded(before, after) =>
      TrimPadded(before, body, after);
      TrimEndPrefix(body);
      assert FENCE <= TrimEnd(body) ==> FENCE <= body;
    case Fenced(_, _, _, _, _) => StripFenced(w, body);
    case Unclosed(_, _, _, _) => StripUnclosed(w, body);
  }

  // ----- Keys -------------------------------------------------------------------------------

  datatype Library = Library(parse: string -> Option<Json>, number: Number -> string,
                             sha256: string -> string, blake3: string -> string)

  function Key(raw: string, lib: Library): string {
    var trimmed := Trim(StripFences(raw));
    if !LooksLikeJson(trimmed) then "blake3:" + (lib.blake3)(trimmed)
    else match (lib.parse)(Trim(trimmed))
      case Some(value) => "sha256:" + (lib.sha256)(CanonicalText(value, lib.number))
      case None => "blake3:" + (lib.blake3)(trimmed)
  }

  /** What an answer says: the meaning of its tree if it is JSON, else the bare text. */
  datatype Reading = Tree(value: Value) | Text(text: string)

  function ReadingOf(text: string, lib: Library): Reading {
    if LooksLikeJson(text) && (lib.parse)(text).Some? then Tree(Meaning((lib.parse)(text).value)) else Text(text)
  }

  /** The hash functions do not collide on two texts, nor on the canonical texts of their trees. */
  predicate NoCollision(t1: string, t2: string, lib: Library) {
    && ((lib.blake3)(t1) == (lib.blake3)(t2) ==> t1 == t2)
    && ((lib.parse)(t1).Some? && (lib.parse)(t2).Some? ==>
          var c1 := CanonicalText((lib.parse)(t1).value, lib.number);
          var c2 := CanonicalText((lib.parse)(t2).value, lib.number);
          (lib.sha256)(c1) == (lib.sha256)(c2) ==> c1 == c2)
  }

  function KeyOfText(text: string, lib: Library): string {
    if ReadingOf(text, lib).Tree? then "sha256:" + (lib.sha256)(CanonicalText((lib.parse)(text).value, lib.number))
    else "blake3:" + (lib.blake3)(text)
  }

  lemma TextKeys(t1: string, t2: string, lib: Library)
    requires FaithfulNumbers(lib.number)
    ensures ReadingOf(t1, lib) == ReadingOf(t2, lib) ==> KeyOfText(t1, lib) == KeyOfText(t2, lib)
    ensures NoCollision(t1, t2, lib) && KeyOfText(t1, lib) == KeyOfText(t2, lib) ==> ReadingOf(t1, lib) == ReadingOf(t2, lib)
    ensures ReadingOf(t1, lib).Tree? != ReadingOf(t2, lib).Tree? ==> KeyOfText(t1, lib) != KeyOfText(t2, lib)
  {
    var k1, k2 := KeyOfText(t1, lib), KeyOfText(t2, lib);
    if ReadingOf(t1, lib).Tree? && ReadingOf(t2, lib).Tree? {
      var v1, v2 := (lib.parse)(t1).value, (lib.parse)(t2).value;
      SameTextIffSameMeaning(v1, v2, lib.number);
      var h1, h2 := (lib.sha256)(CanonicalText(v1, lib.number)), (lib.sha256)(CanonicalText(v2, lib.number));
      if k1 == k2 { DropPrefix("sha256:", h1, h2); }
    } else if !ReadingOf(t1, lib).Tree? && !ReadingOf(t2, lib).Tree? {
      if k1 == k2 { DropPrefix("blake3:", (lib.blake3)(t1), (lib.blake3)(t2)); }
    } else {
      assert k1[0] != k2[0];
    }
  }

  lemma KeyOfWrapped(w: Wrapping, body: string, lib: Library)
    requires w.Valid() && w.Fits(body)
    ensures Key(w.Wrap(body), lib) == KeyOfText(TrimEnd(body), lib)
  {
    StripUnwraps(w, body);
    TrimEndKeepsStart(body);
    assert TrimStart(TrimEnd(body)) == TrimEnd(body);
  }

  /** Fenced, unclosed and padded copies of one body get one key, whether it is JSON, broken JSON or plain text. */
  lemma WrappingsShareKey(w1: Wrapping, w2: Wrapping, body: string, lib: Library)
    requires w1.Valid() && w2.Valid() && w1.Fits(body) && w2.Fits(body)
    ensures Key(w1.Wrap(body), lib) == Key(w2.Wrap(body), lib)
  {
    KeyOfWrapped(w1, body, lib);
    KeyOfWrapped(w2, body, lib);
  }

  /** Two answers, however wrapped, vote together exactly when they say the same: as trees when both are JSON, to
      the letter when neither is, and never when only one is. Only the direction from key to reading needs the
      hashes not to collide on the two. */
  lemma SameKeyIffSameReading(w1: Wrapping, b1: string, w2: Wrapping, b2: string, lib: Library)
    requires w1.Valid() && w2.Valid() && w1.Fits(b1) && w2.Fits(b2) && FaithfulNumbers(lib.number)
    ensures var r1, r2 := ReadingOf(TrimEnd(b1), lib), ReadingOf(TrimEnd(b2), lib);
            var same := Key(w1.Wrap(b1), lib) == Key(w2.Wrap(b2), lib);
            && (r1 == r2 ==> same)
            && (NoCollision(TrimEnd(b1), TrimEnd(b2), lib) ==> (same <==> r1 == r2))
            && (same ==> (r1.Tree? <==> r2.Tree?))
  {
    KeyOfWrapped(w1, b1, lib);
    KeyOfWrapped(w2, b2, lib);
    TextKeys(TrimEnd(b1), TrimEnd(b2), lib);
  }

  // ----- Any two answers ------------------------------------------------------------------------

  lemma {:induction false} TrimStartVisible(s: string)
    ensures TrimStart(s) == "" || Visible(TrimStart(s))
    ensures |TrimStart(s)| <= |s|
  {
    if s != "" && IsSpace(s[0]) { TrimStartVisible(s[1..]); }
  }

  lemma TrimTwice(s: string)
    ensures Trim(Trim(s)) == Trim(s)
  {
    TrimStartVisible(s);
    if TrimStart(s) != "" { TrimEndKeepsStart(TrimStart(s)); }
  }

  /** The same for any two raw answers, wrapped or not, by the texts they strip down to. */
  lemma SameKeyIffSameText(raw1: string, raw2: string, lib: Library)
    requires FaithfulNumbers(lib.number)
    ensures var t1, t2 := Trim(StripFences(raw1)), Trim(StripFences(raw2));
            NoCollision(t1, t2, lib) ==> (Key(raw1, lib) == Key(raw2, lib) <==> ReadingOf(t1, lib) == ReadingOf(t2, lib))
  {
    TrimTwice(StripFences(raw1));
    TrimTwice(StripFences(raw2));
    TextKeys(Trim(StripFences(raw1)), Trim(StripFences(raw2)), lib);
  }
}
