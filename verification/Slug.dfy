/** Project slugs (src/domain/project.rs): the strict rule, and the derivation of a slug from free text. */
module Slug {
  import opened Text

  const SLUG_MAX_LEN := 48

  datatype SlugError = Empty | TooLong | InvalidChar | MisplacedDash

  predicate SlugChar(c: char) { IsLower(c) || IsDigit(c) || c == '-' }

  predicate AllSlugChars(s: string) { forall i :: 0 <= i < |s| ==> SlugChar(s[i]) }

  predicate DoubleDash(s: string) { exists i :: 0 <= i < |s| - 1 && s[i] == '-' && s[i + 1] == '-' }

  function ValidateSlug(slug: string): Option<SlugError> {
    if slug == [] then Some(Empty)
    else if Utf8Len(slug) > SLUG_MAX_LEN then Some(TooLong)
    else if !AllSlugChars(slug) then Some(InvalidChar)
    else if slug[0] == '-' || slug[|slug| - 1] == '-' || DoubleDash(slug) then Some(MisplacedDash)
    else None
  }

  predicate Valid(slug: string) { ValidateSlug(slug).None? }

  /** One character of the input against the slug built so far. */
  function Push(slug: string, ch: char): string {
    if IsAlnum(ch) then slug + [ToLower(ch)]
    else if slug != [] && slug[|slug| - 1] != '-' then slug + ['-']
    else slug
  }

  /** The slug after reading `input`, stopping at the length limit. */
  function Build(slug: string, input: string): string
    decreases |input|
  {
    if input == [] || |slug| >= SLUG_MAX_LEN then slug else Build(Push(slug, input[0]), input[1..])
  }

  function TrimDashes(s: string): (r: string)
    decreases |s|
  {
    if s == [] then []
    else if s[0] == '-' then TrimDashes(s[1..])
    else if s[|s| - 1] == '-' then TrimDashes(s[..|s| - 1])
    else s
  }

  /** `suffix` is the random part used when nothing of the input survives. */
  function Slugify(input: string, suffix: string): string {
    var trimmed := TrimDashes(Build([], input));
    if trimmed == [] then "project-" + suffix else trimmed
  }

  method ComputeSlug(input: string, suffix: string) returns (r: string)
    ensures r == Slugify(input, suffix)
  {
    var slug, prevDash, i := "", false, 0;
    while i < |input| && |slug| < SLUG_MAX_LEN
      invariant 0 <= i <= |input|
      invariant prevDash <==> slug != [] && slug[|slug| - 1] == '-'
      invariant Build(slug, input[i..]) == Build([], input)
    {
      var ch := input[i];
      assert input[i..][1..] == input[i + 1..];
      if IsAlnum(ch) {
        slug := slug + [ToLower(ch)];
        prevDash := false;
      } else if !prevDash && slug != [] {
        slug := slug + ['-'];
        prevDash := true;
      }
      i := i + 1;
    }
    var trimmed := TrimDashes(slug);
    if trimmed == [] {
      return "project-" + suffix;
    }
    return trimmed;
  }

  // ---- every result is valid ----

  /** What holds of every slug under construction: only its last character may be a stray dash. */
  predicate Partial(s: string) {
    |s| <= SLUG_MAX_LEN && AllSlugChars(s) && !DoubleDash(s) && (s != [] ==> s[0] != '-')
  }

  lemma PushKeepsPartial(slug: string, ch: char)
    requires Partial(slug) && |slug| < SLUG_MAX_LEN
    ensures Partial(Push(slug, ch))
  {
    var r := Push(slug, ch);
    forall i | 0 <= i < |r| - 1
      ensures !(r[i] == '-' && r[i + 1] == '-')
    {
      assert r[i] == slug[i] && (i + 1 < |slug| ==> r[i + 1] == slug[i + 1]);
    }
  }

  lemma {:induction false} BuildKeepsPartial(slug: string, input: string)
    requires Partial(slug)
    ensures Partial(Build(slug, input))
    decreases |input|
  {
    if input != [] && |slug| < SLUG_MAX_LEN {
      PushKeepsPartial(slug, input[0]);
      BuildKeepsPartial(Push(slug, input[0]), input[1..]);
    }
  }

  lemma {:induction false} AsciiLen(s: string)
    requires AllSlugChars(s)
    ensures Utf8Len(s) == |s|
  {
    if s != [] {
      assert SlugChar(s[0]);
      AsciiLen(s[1..]);
    }
  }

  lemma TrimPartial(s: string)
    requires Partial(s)
    ensures TrimDashes(s) == (if s != [] && s[|s| - 1] == '-' then s[..|s| - 1] else s)
    ensures TrimDashes(s) == [] || Valid(TrimDashes(s))
  {
    var r := if s != [] && s[|s| - 1] == '-' then s[..|s| - 1] else s;
    assert r != [] ==> r[|r| - 1] != '-';
    assert forall i :: 0 <= i < |r| ==> r[i] == s[i];
    AsciiLen(r);
  }

  lemma FallbackValid(suffix: string)
    requires |suffix| == 8 && forall i :: 0 <= i < 8 ==> IsDigit(suffix[i]) || 'a' <= suffix[i] <= 'f'
    ensures Valid("project-" + suffix)
  {
    var r := "project-" + suffix;
    assert forall i :: 0 <= i < 8 ==> r[i] == "project-"[i];
    assert forall i :: 8 <= i < 16 ==> r[i] == suffix[i - 8];
    assert r[7] == '-' && r[8] != '-' && r[15] != '-';
    AsciiLen(r);
  }

  /** `slugify` always produces a valid slug, its random fallback included. */
  lemma SlugifyIsValid(input: string, suffix: string)
    requires |suffix| == 8 && forall i :: 0 <= i < 8 ==> IsDigit(suffix[i]) || 'a' <= suffix[i] <= 'f'
    ensures Valid(Slugify(input, suffix))
  {
    BuildKeepsPartial([], input);
    TrimPartial(Build([], input));
    FallbackValid(suffix);
  }

  // ---- valid slugs are fixed points ----

  lemma {:induction false} BuildCopies(slug: string, n: nat)
    requires Valid(slug) && n <= |slug|
    ensures Build(slug[..n], slug[n..]) == slug
    decreases |slug| - n
  {
    AsciiLen(slug);
    if n == |slug| {
      assert slug[..n] == slug;
    } else {
      var c := slug[n];
      assert SlugChar(c);
      assert c == '-' ==> n > 0 && slug[n - 1] != '-';
      assert Push(slug[..n], c) == slug[..n + 1];
      assert slug[n..][1..] == slug[n + 1..];
      BuildCopies(slug, n + 1);
    }
  }

  lemma ValidIsFixpoint(slug: string, suffix: string)
    requires Valid(slug)
    ensures Slugify(slug, suffix) == slug
  {
    BuildCopies(slug, 0);
    assert slug[..0] == [] && slug[0..] == slug;
    BuildKeepsPartial([], slug);
    TrimPartial(slug);
  }

  // ---- the letters of the result are those of the input ----

  /** The lower-cased ASCII letters and digits of `s`, in order. */
  function Letters(s: string): string {
    if s == [] then [] else (if IsAlnum(s[0]) then [ToLower(s[0])] else []) + Letters(s[1..])
  }

  lemma {:induction false} LettersConcat(a: string, b: string)
    ensures Letters(a + b) == Letters(a) + Letters(b)
  {
    if a == [] {
      assert a + b == b;
    } else {
      var head := if IsAlnum(a[0]) then [ToLower(a[0])] else [];
      assert (a + b)[1..] == a[1..] + b && (a + b)[0] == a[0];
      LettersConcat(a[1..], b);
      Assoc(head, Letters(a[1..]), Letters(b));
    }
  }

  lemma {:induction false} BuildLetters(slug: string, input: string)
    ensures Letters(Build(slug, input)) <= Letters(slug) + Letters(input)
    ensures |Build(slug, input)| < SLUG_MAX_LEN ==> Letters(Build(slug, input)) == Letters(slug) + Letters(input)
    decreases |input|
  {
    if input != [] && |slug| < SLUG_MAX_LEN {
      BuildLetters(Push(slug, input[0]), input[1..]);
      PushLetters(slug, input[0]);
      LettersOfHead(input);
      Assoc(Letters(slug), Letters([input[0]]), Letters(input[1..]));
    }
  }

  lemma PushLetters(slug: string, ch: char)
    ensures Letters(Push(slug, ch)) == Letters(slug) + Letters([ch])
  {
    LettersConcat(slug, [ToLower(ch)]);
    LettersConcat(slug, ['-']);
  }

  lemma LettersOfHead(input: string)
    requires input != []
    ensures Letters(input) == Letters([input[0]]) + Letters(input[1..])
  {
    assert [input[0]] + input[1..] == input;
    LettersConcat([input[0]], input[1..]);
  }

  /** No letter is invented or reordered, and none is lost before the length limit. */
  lemma SlugifyLetters(input: string, suffix: string)
    requires Letters(input) != []
    ensures Letters(Slugify(input, suffix)) <= Letters(input)
    ensures |Slugify(input, suffix)| < SLUG_MAX_LEN - 1 ==> Letters(Slugify(input, suffix)) == Letters(input)
  {
    var b := Build([], input);
    BuildLetters([], input);
    BuildKeepsPartial([], input);
    TrimPartial(b);
    assert b != [];
    if b[|b| - 1] == '-' {
      assert b == b[..|b| - 1] + ['-'];
      LettersConcat(b[..|b| - 1], ['-']);
      assert Letters(['-']) == [] && Letters(b) == Letters(b[..|b| - 1]);
    }
  }

  // ---- the words of the input, dashed ----

  /** A word and what separates it from the next one, if there is a next one. */
  datatype Part = Part(word: string, gap: string)

  function PartsText(ps: seq<Part>): string { if ps == [] then [] else ps[0].word + ps[0].gap + PartsText(ps[1..]) }

  /** Words of letters and digits; gaps without any, of any length but not empty between two words. */
  predicate GoodParts(ps: seq<Part>) {
    ps != [] ==>
      && ps[0].word != [] && (forall i :: 0 <= i < |ps[0].word| ==> IsAlnum(ps[0].word[i]))
      && Gap(ps[0].gap) && (|ps| > 1 ==> ps[0].gap != []) && GoodParts(ps[1..])
  }

  predicate Gap(s: string) { forall i :: 0 <= i < |s| ==> !IsAlnum(s[i]) }

  function LowerCase(s: string): string { if s == [] then [] else [ToLower(s[0])] + LowerCase(s[1..]) }

  /** The words in lower case, one dash between two of them. */
  function Dashed(ps: seq<Part>): string {
    if ps == [] then []
    else if |ps| == 1 then LowerCase(ps[0].word)
    else LowerCase(ps[0].word) + ['-'] + Dashed(ps[1..])
  }

  function Cut(s: string): string { if |s| > SLUG_MAX_LEN then s[..SLUG_MAX_LEN] else s }

  /** Building without the limit. */
  function Full(slug: string, input: string): string
    decreases |input|
  {
    if input == [] then slug else Full(Push(slug, input[0]), input[1..])
  }

  lemma {:induction false} FullExtends(slug: string, input: string)
    ensures slug <= Full(slug, input)
    decreases |input|
  {
    if input != [] {
      FullExtends(Push(slug, input[0]), input[1..]);
    }
  }

  lemma {:induction false} BuildIsCut(slug: string, input: string)
    requires |slug| <= SLUG_MAX_LEN
    ensures Build(slug, input) == Cut(Full(slug, input))
    decreases |input|
  {
    if input != [] {
      if |slug| >= SLUG_MAX_LEN {
        FullExtends(slug, input);
      } else {
        BuildIsCut(Push(slug, input[0]), input[1..]);
      }
    }
  }

  lemma {:induction false} FullConcat(slug: string, a: string, b: string)
    ensures Full(slug, a + b) == Full(Full(slug, a), b)
    decreases |a|
  {
    if a == [] {
      assert a + b == b;
    } else {
      assert (a + b)[1..] == a[1..] + b;
      FullConcat(Push(slug, a[0]), a[1..], b);
    }
  }

  lemma {:induction false} FullWord(slug: string, w: string)
    requires forall i :: 0 <= i < |w| ==> IsAlnum(w[i])
    ensures Full(slug, w) == slug + LowerCase(w) && |LowerCase(w)| == |w|
    ensures w != [] ==> LowerCase(w)[|w| - 1] != '-'
    decreases |w|
  {
    if w != [] {
      assert IsAlnum(w[0]);
      FullWord(slug + [ToLower(w[0])], w[1..]);
      Assoc(slug, [ToLower(w[0])], LowerCase(w[1..]));
    }
  }

  lemma {:induction false} FullGap(slug: string, g: string)
    requires Gap(g)
    ensures Full(slug, g) == if g == [] || slug == [] || slug[|slug| - 1] == '-' then slug else slug + ['-']
    decreases |g|
  {
    if g != [] {
      assert !IsAlnum(g[0]);
      FullGap(Push(slug, g[0]), g[1..]);
    }
  }

  function Stray(ps: seq<Part>): string
    requires ps != []
  {
    if ps[|ps| - 1].gap == [] then [] else ['-']
  }

  lemma FullPart(slug: string, w: string, g: string)
    requires w != [] && (forall i :: 0 <= i < |w| ==> IsAlnum(w[i])) && Gap(g)
    ensures Full(slug, w + g) == slug + LowerCase(w) + (if g == [] then [] else ['-'])
  {
    FullConcat(slug, w, g);
    FullWord(slug, w);
    var s := slug + LowerCase(w);
    assert s[|s| - 1] == LowerCase(w)[|w| - 1];
    FullGap(s, g);
  }

  /** After the words: their dashed form, and a stray dash if the text goes on. */
  lemma {:induction false} FullParts(slug: string, ps: seq<Part>)
    requires GoodParts(ps) && ps != []
    ensures Full(slug, PartsText(ps)) == slug + (Dashed(ps) + Stray(ps))
    decreases |ps|
  {
    var w, g, rest := ps[0].word, ps[0].gap, PartsText(ps[1..]);
    FullConcat(slug, w + g, rest);
    FullPart(slug, w, g);
    if |ps| > 1 {
      FullParts(slug + LowerCase(w) + ['-'], ps[1..]);
      assert Stray(ps[1..]) == Stray(ps);
      Regroup(slug, LowerCase(w), Dashed(ps[1..]), Stray(ps));
    } else {
      assert rest == [] && w + g + rest == w + g;
      Assoc(slug, LowerCase(w), Stray(ps));
    }
  }

  lemma Regroup(a: string, b: string, c: string, d: string)
    ensures a + b + ['-'] + (c + d) == a + (b + ['-'] + c + d)
  {
  }

  /** A slug is the words of the input in lower case with one dash between two of them, cut after 48 characters
      and, if that is after a dash, before it. */
  lemma SlugIsDashedWords(lead: string, ps: seq<Part>, suffix: string)
    requires Gap(lead) && GoodParts(ps) && ps != []
    ensures var cut := if |Dashed(ps)| > 48 then Dashed(ps)[..48] else Dashed(ps);
            cut != [] && Slugify(lead + PartsText(ps), suffix) == if cut[|cut| - 1] == '-' then cut[..|cut| - 1] else cut
  {
    var input := lead + PartsText(ps);
    BuiltFromParts(lead, ps);
    DashedEnds(ps);
    CutDashed(Dashed(ps), Stray(ps));
    SlugOfBuilt(input, Build([], input), suffix);
  }

  lemma SlugOfBuilt(input: string, built: string, suffix: string)
    requires built == Build([], input) && built != [] && built[0] != '-'
    ensures Slugify(input, suffix) == if built[|built| - 1] == '-' then built[..|built| - 1] else built
  {
    BuildKeepsPartial([], input);
    TrimPartial(built);
  }

  lemma BuiltFromParts(lead: string, ps: seq<Part>)
    requires Gap(lead) && GoodParts(ps) && ps != []
    ensures Build([], lead + PartsText(ps)) == Cut([] + (Dashed(ps) + Stray(ps)))
  {
    FullConcat([], lead, PartsText(ps));
    FullGap([], lead);
    FullParts([], ps);
    BuildIsCut([], lead + PartsText(ps));
  }

  /** The stray dash is gone after the limit and after the trimming. */
  lemma CutDashed(s: string, stray: string)
    requires s != [] && s[0] != '-' && s[|s| - 1] != '-' && (stray == [] || stray == ['-'])
    ensures var cut, all := if |s| > 48 then s[..48] else s, Cut([] + (s + stray));
            && all != [] && cut != [] && all[0] != '-'
            && (if all[|all| - 1] == '-' then all[..|all| - 1] else all)
               == (if cut[|cut| - 1] == '-' then cut[..|cut| - 1] else cut)
  {
    assert [] + (s + stray) == s + stray;
    if |s| >= 48 {
      assert (s + stray)[..48] == s[..48];
    }
  }

  /** Without a word the random suffix stands in. */
  lemma SlugOfNoWord(input: string, suffix: string)
    requires Gap(input)
    ensures Slugify(input, suffix) == "project-" + suffix
  {
    FullGap([], input);
    BuildIsCut([], input);
  }

  lemma {:induction false} DashedEnds(ps: seq<Part>)
    requires GoodParts(ps) && ps != []
    ensures Dashed(ps) != [] && Dashed(ps)[0] != '-' && Dashed(ps)[|Dashed(ps)| - 1] != '-'
  {
    FullWord([], ps[0].word);
    assert IsAlnum(ps[0].word[0]);
    if |ps| > 1 {
      DashedEnds(ps[1..]);
    }
  }

  /** Every text with a letter or digit in it has such words. */
  lemma {:induction false} PartsExist(s: string) returns (lead: string, ps: seq<Part>)
    ensures Gap(lead) && GoodParts(ps) && lead + PartsText(ps) == s
    ensures ps != [] <==> exists i :: 0 <= i < |s| && IsAlnum(s[i])
  {
    if s == [] {
      lead, ps := [], [];
    } else {
      lead, ps := PartsExist(s[1..]);
      if !IsAlnum(s[0]) {
        lead := [s[0]] + lead;
      } else if lead == [] && ps != [] {
        ps := [Part([s[0]] + ps[0].word, ps[0].gap)] + ps[1..];
      } else {
        ps := [Part([s[0]], lead)] + ps;
        lead := [];
      }
    }
  }
}
