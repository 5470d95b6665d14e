/** Message parameterization for grouping (src/grouping/normalize.rs): the scanner that masks
    integers, UUIDs and random ids, and the proof that masking is stable under itself. */
module Normalize {
  import opened Text

  const MIN_RANDOM_TOKEN_LEN := 6

  predicate HasDigit(s: string) { exists i :: 0 <= i < |s| && IsDigit(s[i]) }

  predicate HasAlpha(s: string) { exists i :: 0 <= i < |s| && IsAlpha(s[i]) }

  predicate AllAlnum(s: string) { forall i :: 0 <= i < |s| ==> IsAlnum(s[i]) }

  /** Length of the leading run of ASCII alphanumerics. */
  function RunLength(s: string): (k: nat)
    ensures k <= |s|
    ensures forall i :: 0 <= i < k ==> IsAlnum(s[i])
    ensures k < |s| ==> !IsAlnum(s[k])
  {
    if s != [] && IsAlnum(s[0]) then 1 + RunLength(s[1..]) else 0
  }

  /** What `collapse_digit_runs` still emits for `token`, given that the previous character was
      (or was not) a digit. */
  function Collapse(token: string, prevDigit: bool): string {
    if token == [] then []
    else if IsDigit(token[0]) then (if prevDigit then [] else "<int>") + Collapse(token[1..], true)
    else [token[0]] + Collapse(token[1..], false)
  }

  function NormalizeToken(token: string): string {
    if HasDigit(token) && !HasAlpha(token) then "<int>"
    else if HasDigit(token) && HasAlpha(token) && |token| >= MIN_RANDOM_TOKEN_LEN then "<id>"
    else Collapse(token, false)
  }

  /** What one turn of the scanner emits, and how many characters it consumes. */
  datatype Piece = Piece(emit: string, len: nat)

  /** The program slices 36 bytes for its UUID test; a slice that passes is all ASCII, so it is also
      36 characters. */
  function Next(s: string, prevSpace: bool): (p: Piece)
    requires s != []
    ensures 0 < p.len <= |s|
  {
    if IsSpace(s[0]) then Piece(if prevSpace then [] else [' '], 1)
    else if UuidAtFront(s) then Piece("<uuid>", 36)
    else if IsAlnum(s[0]) then Piece(NormalizeToken(s[..RunLength(s)]), RunLength(s))
    else Piece([s[0]], 1)
  }

  /** What the scanner still emits for the unread text `s`. */
  function Scan(s: string, prevSpace: bool): string
    decreases |s|
  {
    if s == [] then []
    else
      var p := Next(s, prevSpace);
      p.emit + Scan(s[p.len..], IsSpace(s[0]))
  }

  function NormalizeMessage(message: string): string {
    Trim(Scan(Trim(message), false))
  }

  method CollapseDigitRuns(token: string) returns (out: string)
    ensures out == Collapse(token, false)
  {
    out := [];
    var prevDigit := false;
    var i := 0;
    while i < |token|
      invariant 0 <= i <= |token|
      invariant Collapse(token, false) == out + Collapse(token[i..], prevDigit)
    {
      var ch := token[i];
      ghost var before, rest := out, Collapse(token[i + 1..], IsDigit(ch));
      assert token[i..][1..] == token[i + 1..];
      if IsDigit(ch) {
        if !prevDigit {
          out := out + "<int>";
          Assoc(before, "<int>", rest);
        }
        prevDigit := true;
      } else {
        prevDigit := false;
        out := out + [ch];
        Assoc(before, [ch], rest);
      }
      i := i + 1;
    }
  }

  method EndOfRun(s: string, start: nat) returns (i: nat)
    requires start <= |s|
    ensures start <= i <= |s| && i - start == RunLength(s[start..])
  {
    i := start;
    while i < |s| && IsAlnum(s[i])
      invariant start <= i <= |s|
      invariant forall j :: start <= j < i ==> IsAlnum(s[j])
    {
      i := i + 1;
    }
    RunIsMaximal(s[start..], i - start);
  }

  /** One turn of the scanner at index `i`: the text it pushes and the next index. */
  method Turn(trimmed: string, i: nat, prevSpace: bool) returns (push: string, next: nat)
    requires i < |trimmed|
    ensures i < next <= |trimmed|
    ensures Piece(push, next - i) == Next(trimmed[i..], prevSpace)
  {
    var ch := trimmed[i];
    ghost var rest := trimmed[i..];
    assert |rest| >= 36 ==> rest[..36] == trimmed[i..i + 36];
    UuidSlice(rest);
    if IsSpace(ch) {
      push := if prevSpace then [] else [' '];
      next := i + 1;
    } else if i + 36 <= |trimmed| && IsUuid(trimmed[i..i + 36]) {
      push, next := "<uuid>", i + 36;
    } else if IsAlnum(ch) {
      next := EndOfRun(trimmed, i);
      assert rest[..next - i] == trimmed[i..next];
      push := NormalizeToken(trimmed[i..next]);
    } else {
      push, next := [ch], i + 1;
    }
  }

  method NormalizeMessageLoop(message: string) returns (result: string)
    ensures result == NormalizeMessage(message)
  {
    var out := ScanLoop(Trim(message));
    result := Trim(out);
  }

  method ScanLoop(trimmed: string) returns (out: string)
    ensures out == Scan(trimmed, false)
  {
    out := [];
    var prevSpace, i := false, 0;
    ghost var total := Scan(trimmed, false);
    Start(trimmed);
    while i < |trimmed|
      invariant 0 <= i <= |trimmed|
      invariant total == out + Scan(trimmed[i..], prevSpace)
    {
      var push, next := Turn(trimmed, i, prevSpace);
      Advance(trimmed[i..], prevSpace, push, next - i, out, total);
      assert trimmed[i..][next - i..] == trimmed[next..] && trimmed[i..][0] == trimmed[i];
      out, prevSpace, i := out + push, IsSpace(trimmed[i]), next;
    }
    Finish(trimmed[i..], prevSpace, out);
  }

  lemma Start(t: string)
    ensures Scan(t, false) == [] + Scan(t[0..], false)
  {
    assert t[0..] == t;
  }

  lemma Finish(rest: string, prevSpace: bool, out: string)
    requires rest == []
    ensures out + Scan(rest, prevSpace) == out
  {
  }

  lemma Advance(s: string, prevSpace: bool, push: string, len: nat, out: string, total: string)
    requires s != [] && total == out + Scan(s, prevSpace) && Next(s, prevSpace) == Piece(push, len)
    ensures total == (out + push) + Scan(s[len..], IsSpace(s[0]))
  {
    ScanStep(s, prevSpace, push, len);
    Assoc(out, push, Scan(s[len..], IsSpace(s[0])));
  }

  /** One turn, then the rest. */
  lemma ScanStep(s: string, prevSpace: bool, emit: string, len: nat)
    requires s != [] && Next(s, prevSpace) == Piece(emit, len)
    ensures Scan(s, prevSpace) == emit + Scan(s[len..], IsSpace(s[0]))
  {
  }

  lemma RunIsMaximal(s: string, k: nat)
    requires k <= |s| && (forall i :: 0 <= i < k ==> IsAlnum(s[i])) && (k < |s| ==> !IsAlnum(s[k]))
    ensures RunLength(s) == k
  {
  }

  lemma UuidSlice(s: string)
    ensures |s| >= 36 ==> IsUuid(s[..36]) == UuidAtFront(s)
  {
    if |s| >= 36 {
      assert forall i :: 0 <= i < 36 ==> s[i] == s[..36][i];
    }
  }

  // ---- the output carries no digit ----

  predicate NoDigit(s: string) { forall i :: 0 <= i < |s| ==> !IsDigit(s[i]) }

  lemma {:induction false} CollapseNoDigit(token: string, prevDigit: bool)
    ensures NoDigit(Collapse(token, prevDigit))
  {
    if token != [] {
      CollapseNoDigit(token[1..], IsDigit(token[0]));
    }
  }

  lemma {:induction false} ScanNoDigit(s: string, prevSpace: bool)
    ensures NoDigit(Scan(s, prevSpace))
    decreases |s|
  {
    if s != [] {
      var p := Next(s, prevSpace);
      CollapseNoDigit(s[..RunLength(s)], false);
      assert NoDigit(p.emit);
      ScanNoDigit(s[p.len..], IsSpace(s[0]));
    }
  }

  lemma OutputHasNoDigit(message: string)
    ensures NoDigit(NormalizeMessage(message))
  {
    ScanNoDigit(Trim(message), false);
  }

  // ---- masking never creates a UUID at a scan position ----

  predicate UuidLetter(c: char) { c == '-' || (IsHex(c) && !IsDigit(c)) }

  predicate UuidLetters(s: string, n: nat) { n <= |s| && forall i :: 0 <= i < n ==> UuidLetter(s[i]) }

  lemma {:induction false} PlainTokenUnchanged(token: string)
    requires !HasDigit(token)
    ensures Collapse(token, false) == token && NormalizeToken(token) == token
  {
    if token != [] {
      assert !HasDigit(token[1..]);
      PlainTokenUnchanged(token[1..]);
    }
  }

  /** A prefix of the output that reads like UUID letters stops before the first masked digit run,
      and is copied from the token. */
  lemma {:induction false} CollapseCopies(token: string, rest: string, n: nat)
    requires HasDigit(token) && UuidLetters(Collapse(token, false) + rest, n)
    ensures n < |token| && n <= |Collapse(token, false)| && Collapse(token, false)[..n] == token[..n]
  {
    var c := Collapse(token, false);
    if IsDigit(token[0]) {
      assert (c + rest)[0] == '<';
    } else {
      var c1 := Collapse(token[1..], false);
      assert HasDigit(token[1..]) by {
        var i :| 0 <= i < |token| && IsDigit(token[i]);
        assert token[1..][i - 1] == token[i];
      }
      if n > 0 {
        assert forall i :: 0 <= i < n - 1 ==> (c1 + rest)[i] == (c + rest)[i + 1];
        CollapseCopies(token[1..], rest, n - 1);
        ConsPrefix(token[0], c1, n);
        ConsPrefix(token[0], token[1..], n);
        assert token == [token[0]] + token[1..];
      }
    }
  }

  /** Nothing is masked at a position that holds neither white space, a UUID nor a token with digits. */
  lemma PlainPiece(s: string)
    requires s != [] && !IsSpace(s[0]) && !UuidAtFront(s)
    requires IsAlnum(s[0]) ==> !HasDigit(s[..RunLength(s)])
    ensures Next(s, false).emit == s[..Next(s, false).len]
  {
    if IsAlnum(s[0]) {
      PlainTokenUnchanged(s[..RunLength(s)]);
    }
  }

  /** The piece keeps some letters before it masks: a short token with digits. */
  predicate MaskedLate(s: string)
    requires s != []
  {
    var tok := s[..RunLength(s)];
    IsAlnum(s[0]) && !UuidAtFront(s) && HasDigit(tok) && HasAlpha(tok) && |tok| < MIN_RANDOM_TOKEN_LEN
  }

  lemma MaskedPieceIsNoLetter(s: string)
    requires s != [] && !MaskedLate(s)
    requires IsSpace(s[0]) || UuidAtFront(s) || (IsAlnum(s[0]) && HasDigit(s[..RunLength(s)]))
    ensures Scan(s, false) != [] && !UuidLetter(Scan(s, false)[0])
  {
  }

  /** Output that reads like the letters and dashes of a UUID was copied, not produced by masking. */
  lemma {:induction false} ScanCopies(s: string, n: nat)
    requires UuidLetters(Scan(s, false), n)
    ensures n <= |s| && Scan(s, false)[..n] == s[..n]
    decreases |s|
  {
    if s != [] {
      var tok := s[..RunLength(s)];
      if MaskedLate(s) {
        CollapseCopies(tok, Scan(s[|tok|..], false), n);
        assert Scan(s, false)[..n] == Collapse(tok, false)[..n] == s[..n];
      } else if IsSpace(s[0]) || UuidAtFront(s) || (IsAlnum(s[0]) && HasDigit(tok)) {
        MaskedPieceIsNoLetter(s);
      } else {
        CopyPlainPiece(s, n);
      }
    }
  }

  lemma {:induction false} CopyPlainPiece(s: string, n: nat)
    requires UuidLetters(Scan(s, false), n)
    requires s != [] && !IsSpace(s[0]) && !UuidAtFront(s)
    requires IsAlnum(s[0]) ==> !HasDigit(s[..RunLength(s)])
    ensures n <= |s| && Scan(s, false)[..n] == s[..n]
    decreases |s|, 0
  {
    PlainPiece(s);
    var k := Next(s, false).len;
    var rest := Scan(s[k..], false);
    ScanStep(s, false, s[..k], k);
    if n > k {
      TailLetters(s[..k], rest, n);
      ScanCopies(s[k..], n - k);
    }
    PrefixOfConcat(s, k, rest, n);
  }

  lemma TailLetters(a: string, rest: string, n: nat)
    requires UuidLetters(a + rest, n) && n > |a|
    ensures UuidLetters(rest, n - |a|)
  {
    assert forall i :: 0 <= i < n - |a| ==> rest[i] == (a + rest)[|a| + i];
  }

  lemma PrefixOfConcat(s: string, k: nat, rest: string, n: nat)
    requires k <= |s| && n <= k + |rest|
    requires n > k ==> n <= |s| && rest[..n - k] == s[k..][..n - k]
    ensures n <= |s| && (s[..k] + rest)[..n] == s[..n]
  {
    if n > k {
      assert (s[..k] + rest)[..n] == s[..k] + rest[..n - k];
      assert s[..n] == s[..k] + s[k..][..n - k];
    }
  }

  lemma SamePrefixUuid(a: string, b: string)
    requires UuidAtFront(a) && |b| >= 36 && a[..36] == b[..36]
    ensures UuidAtFront(b)
  {
    assert forall i :: 0 <= i < 36 ==> a[..36][i] == a[i] && b[..36][i] == b[i];
  }

  lemma MaskedUuidOpensWithAngle(s: string)
    ensures UuidAtFront(s) ==> Scan(s, false) != [] && Scan(s, false)[0] == '<'
  {
  }

  lemma NoNewUuid(s: string)
    ensures !UuidAtFront(Scan(s, false))
  {
    var out := Scan(s, false);
    ScanNoDigit(s, false);
    MaskedUuidOpensWithAngle(s);
    if UuidAtFront(out) {
      ScanCopies(s, 36);
      SamePrefixUuid(out, s);
    }
  }

  // ---- rescanning ----

  predicate StopsRun(s: string) { s == [] || !IsAlnum(s[0]) }

  lemma ScanStopsRun(s: string)
    requires StopsRun(s)
    ensures StopsRun(Scan(s, false))
  {
  }

  lemma NextAtLetters(w: string, rest: string, prevSpace: bool)
    requires w != [] && AllAlnum(w) && !HasDigit(w) && StopsRun(rest)
    requires !UuidAtFront(w + rest)
    ensures Next(w + rest, prevSpace) == Piece(w, |w|)
  {
    var s := w + rest;
    assert s[0] == w[0];
    assert forall i :: 0 <= i < |w| ==> s[i] == w[i];
    assert |w| < |s| ==> s[|w|] == rest[0];
    RunIsMaximal(s, |w|);
    assert s[..|w|] == w;
    PlainTokenUnchanged(w);
  }

  /** A letter run in front of a non-alphanumeric rescans to itself unless it opens a UUID. */
  lemma RescanLetters(w: string, rest: string, prevSpace: bool)
    requires w != [] && AllAlnum(w) && !HasDigit(w) && StopsRun(rest)
    requires !UuidAtFront(w + rest)
    ensures Scan(w + rest, prevSpace) == w + Scan(rest, false)
  {
    NextAtLetters(w, rest, prevSpace);
    ScanStep(w + rest, prevSpace, w, |w|);
    assert (w + rest)[0] == w[0] && (w + rest)[|w|..] == rest;
  }

  lemma RescanOther(c: char, rest: string, prevSpace: bool)
    requires !IsAlnum(c) && !IsSpace(c)
    ensures Scan([c] + rest, prevSpace) == [c] + Scan(rest, false)
  {
    var s := [c] + rest;
    assert s[0] == c && s[1..] == rest;
    assert !UuidAtFront(s) by {
      assert !UuidChar(0, s[0]);
    }
  }

  /** A bracketed word that cannot open a UUID rescans to itself whatever follows it. */
  lemma RescanBracketed(word: string, rest: string, prevSpace: bool)
    requires word != [] && AllAlnum(word) && !HasDigit(word) && !IsHex(word[0])
    ensures Scan(['<'] + (word + (['>'] + rest)), prevSpace) == ['<'] + (word + (['>'] + Scan(rest, false)))
  {
    var tail := ['>'] + rest;
    RescanOther('<', word + tail, prevSpace);
    assert (word + tail)[0] == word[0];
    ShortRunIsNoUuid(word + tail, 0);
    RescanLetters(word, tail, false);
    RescanOther('>', rest, false);
  }

  lemma RescanPlaceholder(mask: string, rest: string, prevSpace: bool)
    requires mask == "<int>" || mask == "<id>" || mask == "<uuid>"
    ensures Scan(mask + rest, prevSpace) == mask + Scan(rest, false)
  {
    var word := if mask == "<int>" then "int" else if mask == "<id>" then "id" else "uuid";
    assert mask == ['<'] + (word + ['>']);
    RescanBracketed(word, rest, prevSpace);
    Bracket(word, rest);
    Bracket(word, Scan(rest, false));
  }

  lemma Bracket(word: string, rest: string)
    ensures (['<'] + (word + ['>'])) + rest == ['<'] + (word + (['>'] + rest))
  {
    Assoc(['<'], word + ['>'], rest);
    Assoc(word, ['>'], rest);
  }

  lemma ShortRunIsNoUuid(s: string, k: nat)
    requires k < 8 && k <= |s| && (k < |s| ==> !IsHex(s[k]))
    ensures !UuidAtFront(s)
  {
  }

  function LetterPrefix(token: string): (k: nat)
    ensures k <= |token| && (forall i :: 0 <= i < k ==> !IsDigit(token[i]))
    ensures k < |token| ==> IsDigit(token[k])
  {
    if token == [] || IsDigit(token[0]) then 0 else 1 + LetterPrefix(token[1..])
  }

  lemma {:induction false} CollapseSplit(token: string, k: nat)
    requires k <= |token| && forall i :: 0 <= i < k ==> !IsDigit(token[i])
    ensures Collapse(token, false) == token[..k] + Collapse(token[k..], false)
  {
    if k > 0 {
      assert token[1..][..k - 1] == token[..k][1..] && token[1..][k - 1..] == token[k..];
      CollapseSplit(token[1..], k - 1);
    }
  }

  /** A token short enough to keep its letters rescans to itself: its letter pieces stop before the
      eighth character, where a UUID has its first dash. */
  lemma {:induction false} RescanCollapsed(token: string, prevDigit: bool, rest: string)
    requires AllAlnum(token) && |token| < MIN_RANDOM_TOKEN_LEN && StopsRun(rest)
    ensures Scan(Collapse(token, prevDigit) + rest, false) == Collapse(token, prevDigit) + Scan(rest, false)
    decreases |token|
  {
    var whole := Collapse(token, prevDigit);
    if token == [] {
      assert whole + rest == rest;
    } else if IsDigit(token[0]) {
      var c := Collapse(token[1..], true);
      RescanCollapsed(token[1..], true, rest);
      if prevDigit {
        assert whole == c;
      } else {
        Assoc("<int>", c, rest);
        RescanPlaceholder("<int>", c + rest, false);
        Assoc("<int>", c, Scan(rest, false));
      }
    } else {
      var k := LetterPrefix(token);
      var w, c := token[..k], Collapse(token[k..], false);
      CollapseSplit(token, k);
      RescanCollapsed(token[k..], false, rest);
      assert k < |token| ==> c[0] == '<';
      Assoc(w, c, rest);
      ShortRunIsNoUuid(w + (c + rest), k);
      RescanLetters(w, c + rest, false);
      Assoc(w, c, Scan(rest, false));
    }
  }

  /** The space flag matters only in front of white space. */
  lemma FlagIgnored(s: string, prevSpace: bool)
    requires s == [] || !IsSpace(s[0])
    ensures Scan(s, prevSpace) == Scan(s, false)
  {
  }

  lemma {:induction false} CollapseEnds(token: string, prevDigit: bool)
    requires AllAlnum(token)
    ensures token != [] && !prevDigit ==> Collapse(token, prevDigit) != []
    ensures forall i :: 0 <= i < |Collapse(token, prevDigit)| ==> !IsSpace(Collapse(token, prevDigit)[i])
  {
    if token != [] {
      CollapseEnds(token[1..], IsDigit(token[0]));
    }
  }

  lemma EmitHasNoSpace(s: string, prevSpace: bool)
    requires s != [] && !IsSpace(s[0])
    ensures var e := Next(s, prevSpace).emit; e != [] && forall i :: 0 <= i < |e| ==> !IsSpace(e[i])
  {
    CollapseEnds(s[..RunLength(s)], false);
  }

  lemma {:induction false} ScanStable(s: string, prevSpace: bool)
    ensures Scan(Scan(s, prevSpace), prevSpace) == Scan(s, prevSpace)
    decreases |s|
  {
    if s != [] {
      var p := Next(s, prevSpace);
      var rest := Scan(s[p.len..], IsSpace(s[0]));
      ScanStable(s[p.len..], IsSpace(s[0]));
      if IsSpace(s[0]) {
        assert p.emit == [] ==> p.emit + rest == rest;
        assert ([' '] + rest)[1..] == rest;
      } else {
        EmitHasNoSpace(s, prevSpace);
        FlagIgnored(s, prevSpace);
        FlagIgnored(p.emit + rest, prevSpace);
        RescanPiece(s);
      }
    }
  }

  lemma RescanPiece(s: string)
    requires s != [] && !IsSpace(s[0])
    ensures var p := Next(s, false);
            var rest := Scan(s[p.len..], false);
            Scan(p.emit + rest, false) == p.emit + Scan(rest, false)
  {
    var p := Next(s, false);
    var rest := Scan(s[p.len..], false);
    var tok := s[..RunLength(s)];
    if UuidAtFront(s) {
      RescanPlaceholder("<uuid>", rest, false);
    } else if !IsAlnum(s[0]) {
      RescanOther(s[0], rest, false);
    } else {
      ScanStopsRun(s[p.len..]);
      if !HasDigit(tok) {
        PlainTokenUnchanged(tok);
        NoNewUuid(s);
        RescanLetters(tok, rest, false);
      } else if !HasAlpha(tok) {
        RescanPlaceholder("<int>", rest, false);
      } else if |tok| >= MIN_RANDOM_TOKEN_LEN {
        RescanPlaceholder("<id>", rest, false);
      } else {
        RescanCollapsed(tok, false, rest);
      }
    }
  }

  lemma {:induction false} ScanKeepsEnd(s: string, prevSpace: bool)
    requires s != [] && !IsSpace(s[|s| - 1])
    ensures Scan(s, prevSpace) != [] && !IsSpace(Scan(s, prevSpace)[|Scan(s, prevSpace)| - 1])
    decreases |s|
  {
    var p := Next(s, prevSpace);
    var rest := Scan(s[p.len..], IsSpace(s[0]));
    ScanStep(s, prevSpace, p.emit, p.len);
    if p.len < |s| {
      ScanKeepsEnd(s[p.len..], IsSpace(s[0]));
    } else {
      EmitHasNoSpace(s, prevSpace);
    }
    LastOfConcat(p.emit, rest);
  }

  lemma ScanOfTrimmed(t: string)
    requires Trimmed(t)
    ensures Trimmed(Scan(t, false)) && Trim(Scan(t, false)) == Scan(t, false)
  {
    if t != [] {
      ScanKeepsEnd(t, false);
      EmitHasNoSpace(t, false);
    }
    TrimFixpoint(Scan(t, false));
  }

  /** Grouping a title again, or a message that already is a title, changes nothing. */
  lemma Idempotent(message: string)
    ensures NormalizeMessage(NormalizeMessage(message)) == NormalizeMessage(message)
  {
    ScanOfTrimmed(Trim(message));
    ScanStable(Trim(message), false);
  }
}
