/** What message masking means (src/grouping/normalize.rs), token by token and without the scanner: how each
    kind of token reads in the result, and which messages therefore group together. */
module MessageTokens {
  import opened Text
  import opened Normalize

  /** A maximal stretch of letters, or of digits, inside a word. */
  datatype Run = Letters(text: string) | Digits(text: string)

  datatype Token = Uuid(text: string) | Word(runs: seq<Run>) | Gap(text: string) | Mark(c: char)

  // ---- what a message consists of ----

  function RunsText(rs: seq<Run>): string { if rs == [] then [] else rs[0].text + RunsText(rs[1..]) }

  function TextOf(t: Token): string {
    match t
    case Uuid(text) => text
    case Word(runs) => RunsText(runs)
    case Gap(text) => text
    case Mark(c) => [c]
  }

  function Unparse(ts: seq<Token>): string { if ts == [] then [] else TextOf(ts[0]) + Unparse(ts[1..]) }

  predicate GoodRun(r: Run) {
    r.text != []
    && match r
       case Letters(text) => forall i :: 0 <= i < |text| ==> 'a' <= text[i] <= 'z' || 'A' <= text[i] <= 'Z'
       case Digits(text) => forall i :: 0 <= i < |text| ==> '0' <= text[i] <= '9'
  }

  /** Letters and digits take turns. */
  predicate GoodRuns(rs: seq<Run>) {
    rs != [] ==> GoodRun(rs[0]) && GoodRuns(rs[1..]) && (|rs| > 1 ==> rs[0].Letters? != rs[1].Letters?)
  }

  predicate OpensUuid(s: string) { |s| >= 36 && IsUuid(s[..36]) }

  /** The token stands in front of `rest` as a tokenization puts it: words and gaps reach as far as they can,
      and no word is read where a UUID could be. */
  predicate GoodToken(t: Token, rest: string) {
    match t
    case Uuid(text) => IsUuid(text)
    case Word(runs) => runs != [] && GoodRuns(runs) && (rest == [] || !IsAlnum(rest[0])) && !OpensUuid(RunsText(runs) + rest)
    case Gap(text) => text != [] && (forall i :: 0 <= i < |text| ==> IsSpace(text[i])) && (rest == [] || !IsSpace(rest[0]))
    case Mark(c) => !IsSpace(c) && !IsAlnum(c)
  }

  predicate Tokenized(ts: seq<Token>) {
    ts != [] ==> GoodToken(ts[0], Unparse(ts[1..])) && Tokenized(ts[1..])
  }

  // ---- how each token reads ----

  function RunMask(r: Run): string { if r.Letters? then r.text else "<int>" }

  function RunsMask(rs: seq<Run>): string { if rs == [] then [] else RunMask(rs[0]) + RunsMask(rs[1..]) }

  /** A number; a mixed word of six or more characters; any other word with its digit runs masked. */
  function WordMask(rs: seq<Run>): string {
    if |rs| == 1 && rs[0].Digits? then "<int>"
    else if |rs| > 1 && |RunsText(rs)| >= 6 then "<id>"
    else RunsMask(rs)
  }

  function Mask(t: Token): string {
    match t
    case Uuid(_) => "<uuid>"
    case Word(runs) => WordMask(runs)
    case Gap(_) => " "
    case Mark(c) => [c]
  }

  function Masked(ts: seq<Token>): string { if ts == [] then [] else Mask(ts[0]) + Masked(ts[1..]) }

  // ---- every text has a tokenization ----

  lemma {:induction false} RunsExist(w: string) returns (rs: seq<Run>)
    requires AllAlnum(w)
    ensures GoodRuns(rs) && RunsText(rs) == w && (w != [] ==> rs != [])
  {
    if w == [] {
      rs := [];
    } else {
      var rest := RunsExist(w[1..]);
      assert IsAlnum(w[0]);
      var head := if IsDigit(w[0]) then Digits([w[0]]) else Letters([w[0]]);
      if rest != [] && rest[0].Digits? == head.Digits? {
        var merged := if head.Digits? then Digits(head.text + rest[0].text) else Letters(head.text + rest[0].text);
        rs := [merged] + rest[1..];
        assert rs[1..] == rest[1..];
        Assoc(head.text, rest[0].text, RunsText(rest[1..]));
      } else {
        rs := [head] + rest;
        assert rs[1..] == rest;
      }
    }
  }

  lemma {:induction false} GapLength(s: string) returns (k: nat)
    ensures k <= |s| && (forall i :: 0 <= i < k ==> IsSpace(s[i])) && (k < |s| ==> !IsSpace(s[k]))
  {
    if s == [] || !IsSpace(s[0]) {
      k := 0;
    } else {
      k := GapLength(s[1..]);
      k := k + 1;
    }
  }

  lemma {:induction false} FirstToken(s: string) returns (t: Token, rest: string)
    requires s != []
    ensures TextOf(t) + rest == s && GoodToken(t, rest) && |rest| < |s|
  {
    var k: nat;
    if IsSpace(s[0]) {
      k := GapLength(s);
      t := Gap(s[..k]);
    } else if OpensUuid(s) {
      k := 36;
      t := Uuid(s[..36]);
    } else if IsAlnum(s[0]) {
      k := RunLength(s);
      var runs := RunsExist(s[..k]);
      assert s[..k] + s[k..] == s;
      t := Word(runs);
    } else {
      k := 1;
      t := Mark(s[0]);
    }
    rest := s[k..];
  }

  /** Every text can be read as tokens. */
  lemma {:induction false} TokensExist(s: string) returns (ts: seq<Token>)
    ensures Tokenized(ts) && Unparse(ts) == s
    decreases |s|
  {
    if s == [] {
      ts := [];
    } else {
      var t, rest := FirstToken(s);
      var more := TokensExist(rest);
      ts := [t] + more;
      assert ts[1..] == more;
    }
  }

  lemma EveryMessageTokenizes(message: string)
    ensures exists ts :: Tokenized(ts) && Unparse(ts) == Trim(message)
  {
    var ts := TokensExist(Trim(message));
  }

  // ---- the scanner reads tokens ----

  /** The digit runs of a word, one placeholder each, whatever came before. */
  lemma {:induction false} CollapseRun(r: Run, rest: string, prevDigit: bool)
    requires GoodRun(r) && (prevDigit ==> r.Letters?)
    ensures Collapse(r.text + rest, prevDigit) == RunMask(r) + Collapse(rest, r.Digits?)
  {
    if r.Letters? {
      CollapseLetters(r.text, rest, prevDigit);
    } else {
      var s := r.text + rest;
      assert s[1..] == r.text[1..] + rest;
      CollapseDigits(r.text[1..], rest);
    }
  }

  lemma {:induction false} CollapseLetters(w: string, rest: string, prevDigit: bool)
    requires w != [] && forall i :: 0 <= i < |w| ==> !IsDigit(w[i])
    ensures Collapse(w + rest, prevDigit) == w + Collapse(rest, false)
  {
    var s := w + rest;
    assert s[1..] == w[1..] + rest && !IsDigit(s[0]);
    if |w| > 1 {
      CollapseLetters(w[1..], rest, false);
      Assoc([w[0]], w[1..], Collapse(rest, false));
      assert [w[0]] + w[1..] == w;
    } else {
      assert w[1..] + rest == rest && [w[0]] == w;
    }
  }

  lemma {:induction false} CollapseDigits(w: string, rest: string)
    requires forall i :: 0 <= i < |w| ==> IsDigit(w[i])
    ensures Collapse(w + rest, true) == Collapse(rest, true)
  {
    if w == [] {
      assert w + rest == rest;
    } else {
      assert (w + rest)[1..] == w[1..] + rest;
      CollapseDigits(w[1..], rest);
    }
  }

  lemma {:induction false} CollapseMeansRuns(rs: seq<Run>, prevDigit: bool)
    requires GoodRuns(rs) && (rs != [] && prevDigit ==> rs[0].Letters?)
    ensures Collapse(RunsText(rs), prevDigit) == RunsMask(rs)
  {
    if rs != [] {
      CollapseRun(rs[0], RunsText(rs[1..]), prevDigit);
      CollapseMeansRuns(rs[1..], rs[0].Digits?);
    }
  }

  lemma {:induction false} RunsAreAlnum(rs: seq<Run>)
    requires GoodRuns(rs)
    ensures AllAlnum(RunsText(rs)) && (rs != [] ==> RunsText(rs) != [])
    ensures HasDigit(RunsText(rs)) <==> exists r :: r in rs && r.Digits?
    ensures HasAlpha(RunsText(rs)) <==> exists r :: r in rs && r.Letters?
  {
    if rs != [] {
      var a, b := rs[0].text, RunsText(rs[1..]);
      RunsAreAlnum(rs[1..]);
      assert forall r :: r in rs <==> r == rs[0] || r in rs[1..];
      HasConcat(a, b);
      if rs[0].Letters? {
        assert IsAlpha(a[0]);
      } else {
        assert IsDigit(a[0]);
      }
    }
  }

  lemma HasConcat(a: string, b: string)
    ensures HasDigit(a + b) <==> HasDigit(a) || HasDigit(b)
    ensures HasAlpha(a + b) <==> HasAlpha(a) || HasAlpha(b)
  {
    var s := a + b;
    assert forall i :: 0 <= i < |a| ==> s[i] == a[i];
    assert forall i :: 0 <= i < |b| ==> s[|a| + i] == b[i];
  }

  /** Both kinds occur exactly when there are two runs or more. */
  lemma KindsOfRuns(rs: seq<Run>)
    requires GoodRuns(rs) && rs != []
    ensures HasDigit(RunsText(rs)) && HasAlpha(RunsText(rs)) <==> |rs| > 1
    ensures HasDigit(RunsText(rs)) && !HasAlpha(RunsText(rs)) <==> |rs| == 1 && rs[0].Digits?
  {
    RunsAreAlnum(rs);
    assert rs[0] in rs;
    if |rs| > 1 {
      assert rs[1] in rs;
    }
  }

  lemma WordMeans(rs: seq<Run>)
    requires GoodRuns(rs) && rs != []
    ensures NormalizeToken(RunsText(rs)) == WordMask(rs)
  {
    KindsOfRuns(rs);
    CollapseMeansRuns(rs, false);
  }

  lemma WordRun(w: string, rest: string)
    requires AllAlnum(w) && (rest == [] || !IsAlnum(rest[0]))
    ensures RunLength(w + rest) == |w| && (w + rest)[..|w|] == w && (w + rest)[|w|..] == rest
  {
    var s := w + rest;
    assert forall i :: 0 <= i < |w| ==> s[i] == w[i];
    RunIsMaximal(s, |w|);
  }

  lemma {:induction false} ScanGap(g: string, rest: string, prevSpace: bool)
    requires (forall i :: 0 <= i < |g| ==> IsSpace(g[i])) && (rest == [] || !IsSpace(rest[0]))
    ensures Scan(g + rest, prevSpace) == (if prevSpace || g == [] then [] else " ") + Scan(rest, false)
  {
    if g == [] {
      assert g + rest == rest;
      FlagIgnored(rest, prevSpace);
    } else {
      var s := g + rest;
      assert s[1..] == g[1..] + rest && IsSpace(s[0]);
      ScanGap(g[1..], rest, true);
      ScanStep(s, prevSpace, if prevSpace then [] else " ", 1);
    }
  }

  lemma ScanToken(t: Token, rest: string)
    requires GoodToken(t, rest)
    ensures Scan(TextOf(t) + rest, false) == Mask(t) + Scan(rest, false)
  {
    var s := TextOf(t) + rest;
    match t {
      case Gap(text) => ScanGap(text, rest, false);
      case Uuid(text) =>
        assert s[..36] == text && s[36..] == rest;
        UuidSlice(s);
        ScanStep(s, false, "<uuid>", 36);
      case Word(runs) =>
        RunsAreAlnum(runs);
        WordRun(RunsText(runs), rest);
        WordMeans(runs);
        UuidSlice(s);
        ScanStep(s, false, WordMask(runs), |RunsText(runs)|);
      case Mark(c) =>
        assert s[0] == c && s[1..] == rest;
        ScanStep(s, false, [c], 1);
    }
  }

  lemma {:induction false} ScanMeansTokens(ts: seq<Token>)
    requires Tokenized(ts)
    ensures Scan(Unparse(ts), false) == Masked(ts)
  {
    if ts != [] {
      ScanToken(ts[0], Unparse(ts[1..]));
      ScanMeansTokens(ts[1..]);
    }
  }

  predicate AllSpace(s: string) { forall i :: 0 <= i < |s| ==> IsSpace(s[i]) }

  lemma {:induction false} TrimStrips(lead: string, t: string, trail: string)
    requires AllSpace(lead) && Trimmed(t) && AllSpace(trail)
    ensures Trim(lead + t + trail) == t
  {
    TrimLead(lead, t + trail);
    assert lead + t + trail == lead + (t + trail);
    if t == [] {
      assert t + trail == trail;
      TrimLead(trail, []);
      assert trail + [] == trail;
    } else {
      TrimTrail(t, trail);
    }
  }

  lemma {:induction false} TrimLead(lead: string, s: string)
    requires AllSpace(lead)
    ensures TrimLeft(lead + s) == TrimLeft(s)
  {
    if lead == [] {
      assert lead + s == s;
    } else {
      assert (lead + s)[1..] == lead[1..] + s;
      TrimLead(lead[1..], s);
    }
  }

  lemma {:induction false} TrimTrail(t: string, trail: string)
    requires t != [] && !IsSpace(t[|t| - 1]) && AllSpace(trail)
    ensures TrimRight(t + trail) == t
    decreases |trail|
  {
    if trail == [] {
      assert t + trail == t;
    } else {
      var n := |trail| - 1;
      assert (t + trail)[..|t + trail| - 1] == t + trail[..n];
      TrimTrail(t, trail[..n]);
    }
  }

  /** The normalized message is the message read token by token, each masked by its kind: a UUID as `<uuid>`, a
      number as `<int>`, a mixed word of six or more characters as `<id>`, any other word as its letters with
      `<int>` for each digit run, a gap as one space, anything else as itself; outer white space is dropped. */
  lemma NormalizesTokenwise(lead: string, ts: seq<Token>, trail: string)
    requires AllSpace(lead) && AllSpace(trail) && Tokenized(ts) && Trimmed(Unparse(ts))
    ensures NormalizeMessage(lead + Unparse(ts) + trail) == Masked(ts)
  {
    TrimStrips(lead, Unparse(ts), trail);
    ScanMeansTokens(ts);
    ScanOfTrimmed(Unparse(ts));
  }

  // ---- which messages group together ----

  /** Runs with the same letters, and digits in the same places. */
  predicate SameShape(a: seq<Run>, b: seq<Run>) {
    |a| == |b| && forall i :: 0 <= i < |a| ==> a[i].Letters? == b[i].Letters? && (a[i].Letters? ==> a[i] == b[i])
  }

  predicate SameKind(a: Token, b: Token) {
    match a
    case Uuid(_) => b.Uuid?
    case Gap(_) => b.Gap?
    case Mark(_) => a == b
    case Word(ra) =>
      b.Word?
      && ((SameShape(ra, b.runs) && (|ra| == 1 || (|RunsText(ra)| >= 6) == (|RunsText(b.runs)| >= 6)))
          || (|ra| > 1 && |b.runs| > 1 && |RunsText(ra)| >= 6 && |RunsText(b.runs)| >= 6))
  }

  lemma {:induction false} SameShapeSameMask(a: seq<Run>, b: seq<Run>)
    requires SameShape(a, b)
    ensures RunsMask(a) == RunsMask(b)
  {
    if a != [] {
      SameShapeSameMask(a[1..], b[1..]);
    }
  }

  lemma {:induction false} SameKindsSameMask(a: seq<Token>, b: seq<Token>)
    requires |a| == |b| && forall i :: 0 <= i < |a| ==> SameKind(a[i], b[i])
    ensures Masked(a) == Masked(b)
  {
    if a != [] {
      SameKindsSameMask(a[1..], b[1..]);
      if a[0].Word? && SameShape(a[0].runs, b[0].runs) {
        SameShapeSameMask(a[0].runs, b[0].runs);
      }
    }
  }

  /** Messages that differ only in their numbers, UUIDs, random ids, digit runs and white space normalize alike. */
  lemma VolatileTokensIgnored(m: string, n: string, a: seq<Token>, b: seq<Token>)
    requires Tokenized(a) && Tokenized(b) && Unparse(a) == Trim(m) && Unparse(b) == Trim(n)
    requires |a| == |b| && forall i :: 0 <= i < |a| ==> SameKind(a[i], b[i])
    ensures NormalizeMessage(m) == NormalizeMessage(n)
  {
    ScanMeansTokens(a);
    ScanMeansTokens(b);
    SameKindsSameMask(a, b);
  }

  // ---- examples ----

  lemma RunsCons(r: Run, rs: seq<Run>)
    ensures RunsText([r] + rs) == r.text + RunsText(rs) && RunsMask([r] + rs) == RunMask(r) + RunsMask(rs)
    ensures GoodRuns([r] + rs) <==> GoodRun(r) && GoodRuns(rs) && (rs != [] ==> r.Letters? != rs[0].Letters?)
  {
    assert ([r] + rs)[1..] == rs;
  }

  lemma TokensCons(t: Token, ts: seq<Token>)
    ensures Unparse([t] + ts) == TextOf(t) + Unparse(ts) && Masked([t] + ts) == Mask(t) + Masked(ts)
    ensures Tokenized([t] + ts) <==> GoodToken(t, Unparse(ts)) && Tokenized(ts)
  {
    assert ([t] + ts)[1..] == ts;
  }

  /** A message of one word. */
  lemma OneWord(w: string, runs: seq<Run>)
    requires runs != [] && GoodRuns(runs) && RunsText(runs) == w && |w| < 36
    ensures NormalizeMessage(w) == WordMask(runs)
  {
    RunsAreAlnum(runs);
    WordRun(w, []);
    WordMeans(runs);
    assert w + [] == w && IsAlnum(w[0]) && IsAlnum(w[|w| - 1]);
    TrimFixpoint(w);
    ScanStep(w, false, WordMask(runs), |w|);
    ScanOfTrimmed(w);
  }

  /** As the comments of the source have it: numbers, random ids, and words like `md5` that stay readable. */
  lemma NumberExample()
    ensures NormalizeMessage("42") == "<int>"
  {
    RunsCons(Digits("42"), []);
    OneWord("42", [Digits("42")] + []);
  }

  lemma ShortWordExample()
    ensures NormalizeMessage("md5") == "md<int>"
  {
    RunsCons(Digits("5"), []);
    RunsCons(Letters("md"), [Digits("5")] + []);
    assert "md" + "5" == "md5" && "md" + "<int>" == "md<int>";
    OneWord("md5", [Letters("md")] + ([Digits("5")] + []));
  }

  lemma RandomIdExample()
    ensures NormalizeMessage("oW2Euf") == "<id>"
  {
    RunsCons(Letters("Euf"), []);
    RunsCons(Digits("2"), [Letters("Euf")] + []);
    RunsCons(Letters("oW"), [Digits("2")] + ([Letters("Euf")] + []));
    assert "oW" + ("2" + "Euf") == "oW2Euf";
    OneWord("oW2Euf", [Letters("oW")] + ([Digits("2")] + ([Letters("Euf")] + [])));
  }
}
