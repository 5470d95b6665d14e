/** The scalar-only template renderer of src/domain/notifications.rs: the left-to-right scanner, the
    grammar it accepts, and their agreement on every string. */
module Templates {
  import opened Text

  const VARIABLES: seq<string> := [
    "project_name", "project_slug", "project_id", "team_id", "issue_id", "issue_short_id", "title",
    "culprit", "level", "environment", "release", "event_count", "first_seen", "last_seen",
    "issue_url", "org_name", "trigger"]

  datatype RenderError =
    | UnsupportedSyntax | InvalidPlaceholder | UnclosedPlaceholder | UnknownVariable(name: string) | MissingVariable

  type Rendered = Result<string, RenderError>

  predicate HasPair(s: string, c: char, d: char) {
    exists i :: 0 <= i < |s| - 1 && s[i] == c && s[i + 1] == d
  }

  /** First index at which `c` is followed by `d`. */
  function FindPair(s: string, c: char, d: char): (r: Option<nat>)
    ensures r.None? <==> !HasPair(s, c, d)
    ensures r.Some? ==> r.value + 2 <= |s| && s[r.value] == c && s[r.value + 1] == d
    ensures r.Some? ==> forall i :: 0 <= i < r.value ==> !(s[i] == c && s[i + 1] == d)
  {
    if |s| < 2 then None
    else if s[0] == c && s[1] == d then Some(0)
    else
      match FindPair(s[1..], c, d)
      case None => assert forall i :: 1 <= i < |s| - 1 ==> s[i] == s[1..][i - 1] && s[i + 1] == s[1..][i]; None
      case Some(i) => assert s[1..][i] == s[i + 1]; Some(i + 1)
  }

  predicate Covers(names: seq<string>, vars: map<string, string>) { forall n :: n in names ==> n in vars }

  /** One turn of the renderer: a verdict, or text to emit and what is left to read. */
  datatype Turn = Halt(result: Rendered) | Emit(out: string, rest: string)

  function NextTurn(remaining: string, names: seq<string>, vars: map<string, string>): (t: Turn)
    ensures t.Emit? ==> |t.rest| < |remaining|
  {
    match FindPair(remaining, '{', '{')
    case None => Halt(if HasPair(remaining, '}', '}') then Err(InvalidPlaceholder) else Ok(remaining))
    case Some(start) =>
      var prefix, tail := remaining[..start], remaining[start + 2..];
      if HasPair(prefix, '}', '}') then Halt(Err(InvalidPlaceholder))
      else
        match FindPair(tail, '}', '}')
        case None => Halt(Err(UnclosedPlaceholder))
        case Some(end) =>
          var name := Trim(tail[..end]);
          if name !in names then Halt(Err(UnknownVariable(name)))
          else if name !in vars then Halt(Err(MissingVariable))
          else Emit(prefix + vars[name], tail[end + 2..])
  }

  /** What the renderer makes of the unread text, with `names` the known variables. */
  function ScanFrom(remaining: string, names: seq<string>, vars: map<string, string>): Rendered
    decreases |remaining|
  {
    match NextTurn(remaining, names, vars)
    case Halt(r) => r
    case Emit(out, rest) => Then(out, ScanFrom(rest, names, vars))
  }

  function Then(out: string, rest: Rendered): Rendered {
    match rest
    case Err(e) => Err(e)
    case Ok(more) => Ok(out + more)
  }

  function RenderWith(template: string, names: seq<string>, vars: map<string, string>): Rendered {
    if HasPair(template, '{', '%') || HasPair(template, '{', '#') then Err(UnsupportedSyntax)
    else ScanFrom(template, names, vars)
  }

  function RenderTemplate(template: string, vars: map<string, string>): Rendered {
    RenderWith(template, VARIABLES, vars)
  }

  method ReadTurn(remaining: string, names: seq<string>, vars: map<string, string>) returns (t: Turn)
    ensures t == NextTurn(remaining, names, vars)
  {
    var start := FindPair(remaining, '{', '{');
    if start.None? {
      if FindPair(remaining, '}', '}').Some? {
        return Halt(Err(InvalidPlaceholder));
      }
      return Halt(Ok(remaining));
    }
    var prefix := remaining[..start.value];
    if FindPair(prefix, '}', '}').Some? {
      return Halt(Err(InvalidPlaceholder));
    }
    var tail := remaining[start.value + 2..];
    var end := FindPair(tail, '}', '}');
    if end.None? {
      return Halt(Err(UnclosedPlaceholder));
    }
    var name := Trim(tail[..end.value]);
    if name !in names {
      return Halt(Err(UnknownVariable(name)));
    }
    if name !in vars {
      return Halt(Err(MissingVariable));
    }
    return Emit(prefix + vars[name], tail[end.value + 2..]);
  }

  method Render(template: string, names: seq<string>, vars: map<string, string>) returns (r: Rendered)
    ensures r == RenderWith(template, names, vars)
  {
    if FindPair(template, '{', '%').Some? || FindPair(template, '{', '#').Some? {
      return Err(UnsupportedSyntax);
    }
    var out, remaining := "", template;
    ghost var whole := ScanFrom(template, names, vars);
    assert whole.Ok? ==> "" + whole.value == whole.value;
    while true
      invariant whole == Then(out, ScanFrom(remaining, names, vars))
      decreases |remaining|
    {
      var turn := ReadTurn(remaining, names, vars);
      if turn.Halt? {
        r := Then(out, turn.result);
        return;
      }
      ThenThen(out, turn.out, ScanFrom(turn.rest, names, vars));
      out, remaining := out + turn.out, turn.rest;
    }
  }

  lemma ThenThen(a: string, b: string, r: Rendered)
    ensures Then(a, Then(b, r)) == Then(a + b, r)
  {
    if r.Ok? {
      Assoc(a, b, r.value);
    }
  }

  // ---- the grammar ----

  /** Literal text, or literal text followed by a placeholder and the rest. */
  datatype Template = Literal(text: string) | Hole(text: string, inner: string, rest: Template)

  function Unparse(t: Template): string {
    match t
    case Literal(s) => s
    case Hole(s, inner, rest) => s + ("{{" + (inner + ("}}" + Unparse(rest))))
  }

  predicate Plain(s: string) {
    !HasPair(s, '{', '{') && !HasPair(s, '}', '}') && !HasPair(s, '{', '%') && !HasPair(s, '{', '#')
  }

  /** Text without template syntax, not running into an opening brace, around known names. */
  predicate WellFormed(t: Template, names: seq<string>) {
    match t
    case Literal(s) => Plain(s)
    case Hole(s, inner, rest) =>
      Plain(s) && (s == [] || s[|s| - 1] != '{') && Trim(inner) in names && WellFormed(rest, names)
  }

  predicate Supplied(t: Template, vars: map<string, string>) {
    t.Hole? ==> Trim(t.inner) in vars && Supplied(t.rest, vars)
  }

  /** The meaning of a template: every value is inserted verbatim, never read again. */
  function Expand(t: Template, vars: map<string, string>): string
    requires Supplied(t, vars)
  {
    match t
    case Literal(s) => s
    case Hole(s, inner, rest) => s + vars[Trim(inner)] + Expand(rest, vars)
  }

  predicate NameChar(c: char) { IsLower(c) || c == '_' }

  predicate NameText(s: string) { forall i :: 0 <= i < |s| ==> NameChar(s[i]) }

  /** No known name contains a character the scanner looks for. */
  predicate PlainNames(names: seq<string>) { forall i :: 0 <= i < |names| ==> NameText(names[i]) }

  lemma VariableNames()
    ensures PlainNames(VARIABLES)
  {
    assert forall j :: 0 <= j < 6 ==> NameText(VARIABLES[j]);
    assert forall j :: 6 <= j < 12 ==> NameText(VARIABLES[j]);
    assert forall j :: 12 <= j < 17 ==> NameText(VARIABLES[j]);
  }

  predicate NoSyntax(s: string) {
    forall i :: 0 <= i < |s| ==> s[i] != '{' && s[i] != '}' && s[i] != '%' && s[i] != '#'
  }

  lemma InnerHasNoSyntax(inner: string, names: seq<string>)
    requires Trim(inner) in names && PlainNames(names)
    ensures NoSyntax(inner)
  {
    var name := Trim(inner);
    assert NameText(name);
    forall i | 0 <= i < |inner| && !IsSpace(inner[i])
      ensures NameChar(inner[i])
    {
      TrimKeeps(inner, inner[i]);
    }
  }

  /** Joining at a boundary that is not the pair itself creates no pair. */
  lemma NoPairAcross(a: string, b: string, c: char, d: char)
    requires !HasPair(a, c, d) && !HasPair(b, c, d)
    requires a == [] || b == [] || a[|a| - 1] != c || b[0] != d
    ensures !HasPair(a + b, c, d)
  {
    var s := a + b;
    forall i | 0 <= i < |s| - 1
      ensures !(s[i] == c && s[i + 1] == d)
    {
      if i + 1 < |a| {
        assert s[i] == a[i] && s[i + 1] == a[i + 1];
      } else if i >= |a| {
        assert s[i] == b[i - |a|] && s[i + 1] == b[i - |a| + 1];
      }
    }
  }

  lemma HoleHasNoBlockSyntax(text: string, inner: string, rest: string, d: char)
    requires !HasPair(text, '{', d) && NoSyntax(inner) && !HasPair(rest, '{', d) && (d == '%' || d == '#')
    ensures !HasPair(text + ("{{" + (inner + ("}}" + rest))), '{', d)
  {
    NoPairAcross("}}", rest, '{', d);
    NoPairAcross(inner, "}}" + rest, '{', d);
    NoPairAcross("{{", inner + ("}}" + rest), '{', d);
    NoPairAcross(text, "{{" + (inner + ("}}" + rest)), '{', d);
  }

  lemma {:induction false} UnparseHasNoBlockSyntax(t: Template, names: seq<string>, d: char)
    requires WellFormed(t, names) && PlainNames(names) && (d == '%' || d == '#')
    ensures !HasPair(Unparse(t), '{', d)
  {
    if t.Hole? {
      UnparseHasNoBlockSyntax(t.rest, names, d);
      InnerHasNoSyntax(t.inner, names);
      HoleHasNoBlockSyntax(t.text, t.inner, Unparse(t.rest), d);
    }
  }

  lemma FirstPair(s: string, c: char, d: char, k: nat)
    requires k + 2 <= |s| && s[k] == c && s[k + 1] == d
    requires forall i :: 0 <= i < k ==> !(s[i] == c && s[i + 1] == d)
    ensures FindPair(s, c, d) == Some(k)
  {
    assert HasPair(s, c, d);
  }

  /** The scanner reads a well-formed template as its grammar does. */
  lemma {:induction false} ScanUnparse(t: Template, names: seq<string>, vars: map<string, string>)
    requires WellFormed(t, names) && PlainNames(names)
    ensures ScanFrom(Unparse(t), names, vars)
         == if Supplied(t, vars) then Ok(Expand(t, vars)) else Err(MissingVariable)
  {
    if t.Hole? {
      ScanUnparse(t.rest, names, vars);
      ScanHole(t.text, t.inner, Unparse(t.rest), names, vars);
    }
  }

  lemma ScanHole(text: string, inner: string, rest: string, names: seq<string>, vars: map<string, string>)
    requires Plain(text) && (text == [] || text[|text| - 1] != '{') && Trim(inner) in names && PlainNames(names)
    ensures ScanFrom(text + ("{{" + (inner + ("}}" + rest))), names, vars)
         == if Trim(inner) !in vars then Err(MissingVariable)
            else Then(text + vars[Trim(inner)], ScanFrom(rest, names, vars))
  {
    TurnAtHole(text, inner, rest, names, vars);
  }

  lemma TurnAtHole(text: string, inner: string, rest: string, names: seq<string>, vars: map<string, string>)
    requires Plain(text) && (text == [] || text[|text| - 1] != '{') && Trim(inner) in names && PlainNames(names)
    ensures NextTurn(text + ("{{" + (inner + ("}}" + rest))), names, vars)
         == if Trim(inner) !in vars then Halt(Err(MissingVariable)) else Emit(text + vars[Trim(inner)], rest)
  {
    InnerHasNoSyntax(inner, names);
    HoleOpens(text, inner + ("}}" + rest));
    HoleCloses(inner, rest);
    TurnShape(text + ("{{" + (inner + ("}}" + rest))), text, inner + ("}}" + rest), inner, rest, names, vars);
  }

  lemma TurnShape(s: string, text: string, tail: string, inner: string, rest: string,
                  names: seq<string>, vars: map<string, string>)
    requires FindPair(s, '{', '{') == Some(|text|) && s[..|text|] == text && s[|text| + 2..] == tail
    requires FindPair(tail, '}', '}') == Some(|inner|) && tail[..|inner|] == inner && tail[|inner| + 2..] == rest
    requires !HasPair(text, '}', '}') && Trim(inner) in names
    ensures NextTurn(s, names, vars)
         == if Trim(inner) !in vars then Halt(Err(MissingVariable)) else Emit(text + vars[Trim(inner)], rest)
  {
  }

  lemma HoleOpens(text: string, tail: string)
    requires Plain(text) && (text == [] || text[|text| - 1] != '{')
    ensures var s := text + ("{{" + tail);
            FindPair(s, '{', '{') == Some(|text|) && s[..|text|] == text && s[|text| + 2..] == tail
  {
    var s := text + ("{{" + tail);
    var n := |text|;
    assert s[n] == '{' && s[n + 1] == '{';
    forall i | 0 <= i < n
      ensures !(s[i] == '{' && s[i + 1] == '{')
    {
      assert s[i] == text[i] && (i + 1 < n ==> s[i + 1] == text[i + 1]);
    }
    FirstPair(s, '{', '{', n);
  }

  lemma HoleCloses(inner: string, rest: string)
    requires NoSyntax(inner)
    ensures var s := inner + ("}}" + rest);
            FindPair(s, '}', '}') == Some(|inner|) && s[..|inner|] == inner && s[|inner| + 2..] == rest
  {
    var s := inner + ("}}" + rest);
    assert s[|inner|] == '}' && s[|inner| + 1] == '}';
    assert forall i :: 0 <= i < |inner| ==> s[i] == inner[i];
    FirstPair(s, '}', '}', |inner|);
  }

  lemma NoPairInSlice(s: string, lo: nat, hi: nat, c: char, d: char)
    requires lo <= hi <= |s| && !HasPair(s, c, d)
    ensures !HasPair(s[lo..hi], c, d)
  {
    var r := s[lo..hi];
    forall i | 0 <= i < |r| - 1
      ensures !(r[i] == c && r[i + 1] == d)
    {
      assert r[i] == s[lo + i] && r[i + 1] == s[lo + i + 1];
    }
  }

  /** Whatever the scanner accepts has a well-formed parse. */
  lemma {:induction false} ParseAccepted(s: string, names: seq<string>, vars: map<string, string>) returns (t: Template)
    requires ScanFrom(s, names, vars).Ok? && !HasPair(s, '{', '%') && !HasPair(s, '{', '#')
    ensures WellFormed(t, names) && Supplied(t, vars) && Unparse(t) == s
    decreases |s|
  {
    var turn := NextTurn(s, names, vars);
    if turn.Halt? {
      t := Literal(s);
    } else {
      var text, inner := ReadHole(s, names, vars);
      var t' := ParseAccepted(turn.rest, names, vars);
      t := Hole(text, inner, t');
    }
  }

  lemma ReadHole(s: string, names: seq<string>, vars: map<string, string>) returns (text: string, inner: string)
    requires NextTurn(s, names, vars).Emit? && !HasPair(s, '{', '%') && !HasPair(s, '{', '#')
    ensures var rest := NextTurn(s, names, vars).rest;
            s == text + ("{{" + (inner + ("}}" + rest))) && !HasPair(rest, '{', '%') && !HasPair(rest, '{', '#')
    ensures Plain(text) && (text == [] || text[|text| - 1] != '{') && Trim(inner) in names && Trim(inner) in vars
  {
    var n := FindPair(s, '{', '{').value;
    var tail := s[n + 2..];
    var m := FindPair(tail, '}', '}').value;
    text, inner := s[..n], tail[..m];
    PlainPrefix(s, n);
    assert NextTurn(s, names, vars).rest == tail[m + 2..];
    RestOfHole(s, n, tail, m);
  }

  lemma RestOfHole(s: string, n: nat, tail: string, m: nat)
    requires n + 2 <= |s| && s[n] == '{' && s[n + 1] == '{' && tail == s[n + 2..]
    requires m + 2 <= |tail| && tail[m] == '}' && tail[m + 1] == '}'
    requires !HasPair(s, '{', '%') && !HasPair(s, '{', '#')
    ensures s == s[..n] + ("{{" + (tail[..m] + ("}}" + tail[m + 2..])))
    ensures !HasPair(tail[m + 2..], '{', '%') && !HasPair(tail[m + 2..], '{', '#')
  {
    SplitAt(s, n, '{');
    SplitAt(tail, m, '}');
    assert tail[m + 2..] == s[n + m + 4..|s|];
    NoPairInSlice(s, n + m + 4, |s|, '{', '%');
    NoPairInSlice(s, n + m + 4, |s|, '{', '#');
  }

  lemma SplitAt(s: string, n: nat, c: char)
    requires n + 2 <= |s| && s[n] == c && s[n + 1] == c
    ensures s == s[..n] + ([c, c] + s[n + 2..])
  {
  }

  lemma PlainPrefix(s: string, n: nat)
    requires FindPair(s, '{', '{') == Some(n)
    requires !HasPair(s[..n], '}', '}') && !HasPair(s, '{', '%') && !HasPair(s, '{', '#')
    ensures Plain(s[..n]) && (n == 0 || s[..n][n - 1] != '{')
  {
    NoPairInSlice(s, 0, n, '{', '%');
    NoPairInSlice(s, 0, n, '{', '#');
    forall i | 0 <= i < n - 1
      ensures !(s[..n][i] == '{' && s[..n][i + 1] == '{')
    {
      assert s[..n][i] == s[i] && s[..n][i + 1] == s[i + 1];
    }
  }

  ghost predicate Parses(s: string, t: Template, names: seq<string>, vars: map<string, string>) {
    WellFormed(t, names) && Supplied(t, vars) && Unparse(t) == s
  }

  lemma {:induction false} CoveredIsSupplied(t: Template, names: seq<string>, vars: map<string, string>)
    requires WellFormed(t, names) && Covers(names, vars)
    ensures Supplied(t, vars)
  {
    if t.Hole? {
      CoveredIsSupplied(t.rest, names, vars);
    }
  }

  lemma ParseGivesOutput(s: string, t: Template, names: seq<string>, vars: map<string, string>)
    requires PlainNames(names) && Parses(s, t, names, vars)
    ensures RenderWith(s, names, vars) == Ok(Expand(t, vars))
  {
    UnparseHasNoBlockSyntax(t, names, '%');
    UnparseHasNoBlockSyntax(t, names, '#');
    ScanUnparse(t, names, vars);
  }

  /** The renderer accepts exactly the well-formed templates whose names are supplied, and every parse
      of an accepted template gives its output. */
  lemma RenderMeansGrammar(s: string, vars: map<string, string>)
    ensures RenderTemplate(s, vars).Ok? <==> exists t :: Parses(s, t, VARIABLES, vars)
    ensures forall t :: Parses(s, t, VARIABLES, vars) ==> RenderTemplate(s, vars) == Ok(Expand(t, vars))
  {
    VariableNames();
    GrammarFor(s, VARIABLES, vars);
  }

  lemma GrammarFor(s: string, names: seq<string>, vars: map<string, string>)
    requires PlainNames(names)
    ensures RenderWith(s, names, vars).Ok? <==> exists t :: Parses(s, t, names, vars)
    ensures forall t :: Parses(s, t, names, vars) ==> RenderWith(s, names, vars) == Ok(Expand(t, vars))
  {
    if RenderWith(s, names, vars).Ok? {
      var t := ParseAccepted(s, names, vars);
      assert Parses(s, t, names, vars);
    }
    forall t | Parses(s, t, names, vars)
      ensures RenderWith(s, names, vars) == Ok(Expand(t, vars))
    {
      ParseGivesOutput(s, t, names, vars);
    }
  }

  lemma OkCarriesOver(s: string, names: seq<string>, v: map<string, string>, w: map<string, string>)
    requires PlainNames(names) && Covers(names, v) && Covers(names, w)
    ensures RenderWith(s, names, v).Ok? ==> RenderWith(s, names, w).Ok?
  {
    if RenderWith(s, names, v).Ok? {
      var t := ParseAccepted(s, names, v);
      CoveredIsSupplied(t, names, w);
      ParseGivesOutput(s, t, names, w);
    }
  }

  /** Whether a template renders depends on the template alone: values cannot break or repair it. */
  lemma ValidityIgnoresValues(s: string, v: map<string, string>, w: map<string, string>)
    requires Covers(VARIABLES, v) && Covers(VARIABLES, w)
    ensures RenderTemplate(s, v).Ok? <==> RenderTemplate(s, w).Ok?
  {
    VariableNames();
    OkCarriesOver(s, VARIABLES, v, w);
    OkCarriesOver(s, VARIABLES, w, v);
  }
}
