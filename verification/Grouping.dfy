/** Which parts of an event its fingerprint depends on (src/grouping/fingerprint.rs,
    src/grouping/normalize.rs). */
module Grouping {
  import opened Text
  import Fnv
  import Normalize

  /** `ids` are the fields a signature may read; the other fields are shown but not grouped by. */
  datatype Frame = Frame(ids: FrameIds, lineno: Option<int>, colno: Option<int>, inApp: Option<bool>,
                         contextLine: Option<string>, preContext: seq<string>, postContext: seq<string>)

  datatype FrameIds = FrameIds(moduleName: Option<string>, function_: Option<string>,
                               filename: Option<string>, absPath: Option<string>)

  datatype Event = Event(exceptionType: Option<string>, exceptionValue: Option<string>,
                         message: Option<string>, level: Option<string>,
                         stacktrace: Option<seq<Frame>>, fingerprint: seq<string>)

  // ---- searching ----

  /** Index of the first occurrence of `pat`. */
  function Find(s: string, pat: string): (r: Option<nat>)
    ensures r.Some? ==> r.value + |pat| <= |s| && s[r.value..r.value + |pat|] == pat
  {
    if |s| < |pat| then None
    else if s[..|pat|] == pat then Some(0)
    else if s == [] then None
    else
      match Find(s[1..], pat)
      case None => None
      case Some(i) => assert s[1..][i..i + |pat|] == s[i + 1..i + 1 + |pat|]; Some(i + 1)
  }

  /** Index of the last occurrence of `pat`. */
  function RFind(s: string, pat: string): (r: Option<nat>)
    ensures r.Some? ==> r.value + |pat| <= |s| && s[r.value..r.value + |pat|] == pat
    decreases |s|
  {
    if |s| < |pat| then None
    else if s[|s| - |pat|..] == pat then Some(|s| - |pat|)
    else if s == [] then None
    else RFind(s[..|s| - 1], pat)
  }

  // ---- frame signatures ----

  predicate AllHex(s: string) { forall i :: 0 <= i < |s| ==> IsHex(s[i]) }

  function StripRustHash(symbol: string): string {
    match RFind(symbol, "::h")
    case None => symbol
    case Some(i) =>
      var suffix := symbol[i + 3..];
      if |suffix| >= 12 && AllHex(suffix) then symbol[..i] else symbol
  }

  function NormalizeModule(m: string): string { StripRustHash(Trim(m)) }

  function NormalizeFunction(f: string): string {
    var g := StripRustHash(Trim(f));
    match Find(g, "+0x")
    case None => Trim(g)
    case Some(i) => Trim(g[..i])
  }

  function CutAt(s: string, pat: string): string {
    match Find(s, pat)
    case None => s
    case Some(i) => s[..i]
  }

  function StripPrefix(s: string, prefix: string): string {
    if prefix <= s then s[|prefix|..] else s
  }

  predicate IsHashLike(token: string) {
    6 <= |token| <= 24 && Normalize.AllAlnum(token) && Normalize.HasDigit(token)
  }

  /** `name.<hash>.ext` or `name-<hash>.ext` without its hash. */
  function StripBundleHash(path: string): string {
    var cut := match RFind(path, "/") case None => 0 case Some(i) => i + 1;
    path[..cut] + StripFileHash(path[cut..])
  }

  function StripFileHash(file: string): string {
    match RFind(file, ".")
    case None => file
    case Some(e) => StripStemHash(file[..e]) + file[e..]
  }

  function StripStemHash(stem: string): string {
    var dot, dash := RFind(stem, "."), RFind(stem, "-");
    if dot.Some? && IsHashLike(stem[dot.value + 1..]) then stem[..dot.value]
    else if dash.Some? && IsHashLike(stem[dash.value + 1..]) then stem[..dash.value]
    else stem
  }

  function NormalizePath(path: string): string {
    var p := CutAt(CutAt(Trim(path), "?"), "#");
    StripBundleHash(StripPrefix(StripPrefix(StripPrefix(p, "webpack://"), "webpack-internal:///"), "app://"))
  }

  function NonEmpty(s: Option<string>): Option<string> {
    if s == Some("") then None else s
  }

  function MapOption(s: Option<string>, f: string -> string): Option<string> {
    match s
    case None => None
    case Some(v) => NonEmpty(Some(f(v)))
  }

  function FrameSignature(f: FrameIds): Option<string> {
    SignatureOf(MapOption(f.moduleName, NormalizeModule), MapOption(f.function_, NormalizeFunction),
                MapOption(if f.filename.Some? then f.filename else f.absPath, NormalizePath))
  }

  function SignatureOf(mod: Option<string>, fun: Option<string>, path: Option<string>): Option<string> {
    if fun.Some? then Some(if mod.Some? then mod.value + "." + fun.value else fun.value)
    else if mod.Some? && path.Some? then Some(mod.value + "@" + path.value)
    else if mod.Some? then mod
    else path
  }

  // ---- material ----

  function InApp(frames: seq<Frame>): seq<Frame> {
    if frames == [] then []
    else (if frames[0].inApp == Some(true) then [frames[0]] else []) + InApp(frames[1..])
  }

  function Signatures(frames: seq<Frame>): seq<string> {
    if frames == [] then []
    else
      (match FrameSignature(frames[0].ids) case None => [] case Some(sig) => ["frame:" + sig])
      + Signatures(frames[1..])
  }

  function GroupingSignatures(frames: seq<Frame>): seq<string> {
    Signatures(if InApp(frames) == [] then frames else InApp(frames))
  }

  function Join(parts: seq<string>, sep: char): string {
    if parts == [] then [] else if |parts| == 1 then parts[0] else parts[0] + [sep] + Join(parts[1..], sep)
  }

  function Components(e: Event): seq<string> {
    var typed := match NonEmpty(e.exceptionType) case None => [] case Some(t) => ["type:" + Trim(t)];
    var frames := match e.stacktrace case None => [] case Some(fs) => GroupingSignatures(fs);
    if typed + frames != [] then typed + frames
    else
      match NonEmpty(e.message)
      case Some(m) => ["message:" + Normalize.NormalizeMessage(m)]
      case None =>
        match NonEmpty(e.exceptionValue)
        case Some(v) => ["value:" + Normalize.NormalizeMessage(v)]
        case None => []
  }

  function DefaultMaterial(e: Event): string { Join(Components(e), '\n') }

  predicate IsDefaultPlaceholder(component: string) {
    Trim(component) == "{{ default }}" || Trim(component) == "{{default}}"
  }

  function Expand(components: seq<string>, material: string): (r: seq<string>)
    ensures |r| == |components|
  {
    seq(|components|, i requires 0 <= i < |components| =>
      if IsDefaultPlaceholder(components[i]) then material else components[i])
  }

  function Encode(n: int): seq<Fnv.byte>
    requires 0 <= n < 0x110000
  {
    if n < 0x80 then [n]
    else if n < 0x800 then [0xC0 + n / 64, 0x80 + n % 64]
    else if n < 0x1_0000 then [0xE0 + n / 4096, 0x80 + n / 64 % 64, 0x80 + n % 64]
    else [0xF0 + n / 262144, 0x80 + n / 4096 % 64, 0x80 + n / 64 % 64, 0x80 + n % 64]
  }

  function Utf8(s: string): seq<Fnv.byte> {
    if s == [] then []
    else Encode(s[0] as int) + Utf8(s[1..])
  }

  function Hash(material: string): string { Fnv.HashHex(Utf8(material)) }

  function CustomFingerprint(e: Event): string {
    var material := DefaultMaterial(e);
    var parts := Expand(e.fingerprint, material);
    if |parts| == 1 && parts[0] == material then Hash(material) else Hash(Join(parts, '\U{1F}'))
  }

  function Fingerprint(e: Event): string {
    if e.fingerprint != [] then CustomFingerprint(e) else Hash(DefaultMaterial(e))
  }

  // ---- what grouping ignores ----

  function Ids(frames: seq<Frame>): seq<FrameIds> {
    seq(|frames|, i requires 0 <= i < |frames| => frames[i].ids)
  }

  /** The traces show the same application frames, in order, up to position and source context;
      library frames may differ in any way. */
  ghost predicate SameApplicationFrames(a: seq<Frame>, b: seq<Frame>) {
    InApp(a) != [] && Ids(InApp(a)) == Ids(InApp(b))
  }

  lemma {:induction false} SignaturesFromIds(a: seq<Frame>, b: seq<Frame>)
    requires Ids(a) == Ids(b)
    ensures Signatures(a) == Signatures(b)
  {
    assert |Ids(a)| == |a| && |Ids(b)| == |b|;
    if a != [] {
      assert Ids(a)[0] == a[0].ids && Ids(b)[0] == b[0].ids;
      assert Ids(a)[1..] == Ids(a[1..]) && Ids(b)[1..] == Ids(b[1..]);
      SignaturesFromIds(a[1..], b[1..]);
    }
  }

  /** Line and column drift, source context and library frames never split a group, for the default
      fingerprint and for custom ones that expand it. */
  lemma VolatilePartsIgnored(e: Event, a: seq<Frame>, b: seq<Frame>)
    requires SameApplicationFrames(a, b)
    ensures Fingerprint(e.(stacktrace := Some(a))) == Fingerprint(e.(stacktrace := Some(b)))
  {
    var x, y := e.(stacktrace := Some(a)), e.(stacktrace := Some(b));
    SameMaterial(x, y, a, b);
    SameMaterialSameFingerprint(x, y);
  }

  lemma SameMaterial(x: Event, y: Event, a: seq<Frame>, b: seq<Frame>)
    requires SameApplicationFrames(a, b) && x.stacktrace == Some(a) && y == x.(stacktrace := Some(b))
    ensures DefaultMaterial(x) == DefaultMaterial(y)
  {
    assert |Ids(InApp(a))| == |InApp(a)| && |Ids(InApp(b))| == |InApp(b)|;
    SignaturesFromIds(InApp(a), InApp(b));
    assert GroupingSignatures(a) == GroupingSignatures(b);
    assert Components(x) == Components(y);
  }

  lemma SameMaterialSameFingerprint(x: Event, y: Event)
    requires DefaultMaterial(x) == DefaultMaterial(y) && x.fingerprint == y.fingerprint
    ensures Fingerprint(x) == Fingerprint(y)
  {
  }

  lemma {:induction false} InAppConcat(a: seq<Frame>, b: seq<Frame>)
    ensures InApp(a + b) == InApp(a) + InApp(b)
  {
    if a == [] {
      assert a + b == b;
    } else {
      assert (a + b)[1..] == a[1..] + b;
      InAppConcat(a[1..], b);
    }
  }

  /** Any run of library frames can be replaced by any other, anywhere in the trace. */
  lemma LibraryFramesInterchangeable(e: Event, pre: seq<Frame>, old_: seq<Frame>, new_: seq<Frame>, post: seq<Frame>)
    requires InApp(old_) == [] && InApp(new_) == [] && InApp(pre + post) != []
    ensures Fingerprint(e.(stacktrace := Some(pre + old_ + post)))
         == Fingerprint(e.(stacktrace := Some(pre + new_ + post)))
  {
    InAppConcat(pre, post);
    InAppConcat(pre, old_);
    InAppConcat(pre, new_);
    InAppConcat(pre + old_, post);
    InAppConcat(pre + new_, post);
    VolatilePartsIgnored(e, pre + old_ + post, pre + new_ + post);
  }

  lemma DefaultPlaceholderReproducesDefault(e: Event, component: string)
    requires IsDefaultPlaceholder(component)
    ensures Fingerprint(e.(fingerprint := [component])) == Fingerprint(e.(fingerprint := []))
  {
    var d, c := e.(fingerprint := []), e.(fingerprint := [component]);
    assert Components(c) == Components(d);
    assert Expand([component], DefaultMaterial(c)) == [DefaultMaterial(c)];
  }

  // ---- the bytes that are hashed ----

  /** The code point that opens a UTF-8 text, and the number of bytes it takes (section 3 of RFC 3629). */
  function ReadOne(b: seq<Fnv.byte>): (int, nat)
    requires |b| >= 1
  {
    var lead: int := b[0];
    if lead < 0x80 then (lead, 1)
    else if lead < 0xE0 && |b| >= 2 then ((lead - 0xC0) * 64 + Tail(b, 1), 2)
    else if lead < 0xF0 && |b| >= 3 then ((lead - 0xE0) * 4096 + Tail(b, 1) * 64 + Tail(b, 2), 3)
    else if |b| >= 4 then ((lead - 0xF0) * 262144 + Tail(b, 1) * 4096 + Tail(b, 2) * 64 + Tail(b, 3), 4)
    else (0, 1)
  }

  /** The six bits of a continuation byte. */
  function Tail(b: seq<Fnv.byte>, i: nat): int
    requires i < |b|
  {
    var n: int := b[i];
    n - 0x80
  }

  function ReadUtf8(b: seq<Fnv.byte>): seq<int> {
    if b == [] then [] else [ReadOne(b).0] + ReadUtf8(b[ReadOne(b).1..])
  }

  function Codes(s: string): seq<int> { if s == [] then [] else [s[0] as int] + Codes(s[1..]) }

  lemma SixBits(n: int)
    requires n >= 0
    ensures n == n / 64 * 64 + n % 64 && n / 64 == n / 4096 * 64 + n / 64 % 64 && n / 4096 == n / 262144 * 64 + n / 4096 % 64
  {
  }

  lemma ReadEncoded(n: int, rest: seq<Fnv.byte>)
    requires 0 <= n < 0x110000
    ensures ReadOne(Encode(n) + rest) == (n, |Encode(n)|)
  {
    var b, e := Encode(n) + rest, Encode(n);
    assert forall i :: 0 <= i < |e| ==> b[i] == e[i];
    SixBits(n);
  }

  /** The bytes of a text are its UTF-8 form: they read back as its code points. */
  lemma {:induction false} Utf8ReadsBack(s: string)
    ensures ReadUtf8(Utf8(s)) == Codes(s)
  {
    if s != [] {
      var head, rest := Encode(s[0] as int), Utf8(s[1..]);
      assert Utf8(s) == head + rest;
      ReadEncoded(s[0] as int, rest);
      assert (head + rest)[|head|..] == rest;
      Utf8ReadsBack(s[1..]);
    }
  }

  // ---- what the default material consists of ----

  /** A frame that takes part in grouping: an in-app one, or any if none is. */
  predicate TakesPart(frames: seq<Frame>, i: nat)
    requires i < |frames|
  {
    frames[i].inApp == Some(true) || forall j :: 0 <= j < |frames| ==> frames[j].inApp != Some(true)
  }

  lemma {:induction false} InAppFrames(frames: seq<Frame>)
    ensures InApp(frames) == [] <==> forall j :: 0 <= j < |frames| ==> frames[j].inApp != Some(true)
    ensures forall f :: f in InApp(frames) <==> f in frames && f.inApp == Some(true)
  {
    if frames != [] {
      InAppFrames(frames[1..]);
      assert forall f :: f in frames <==> f == frames[0] || f in frames[1..];
    }
  }

  lemma {:induction false} SignaturesOf(frames: seq<Frame>, c: string)
    ensures c in Signatures(frames) <==> exists f :: f in frames && FrameSignature(f.ids).Some? && c == "frame:" + FrameSignature(f.ids).value
  {
    if frames != [] {
      SignaturesOf(frames[1..], c);
      assert forall f :: f in frames <==> f == frames[0] || f in frames[1..];
    }
  }

  lemma {:induction false} SignaturesConcat(a: seq<Frame>, b: seq<Frame>)
    ensures Signatures(a + b) == Signatures(a) + Signatures(b)
  {
    if a == [] {
      assert a + b == b;
    } else {
      assert (a + b)[1..] == a[1..] + b && (a + b)[0] == a[0];
      SignaturesConcat(a[1..], b);
      SignaturesStep(a);
      SignaturesStep(a + b);
      AssocLists(SignaturesHead(a[0]), Signatures(a[1..]), Signatures(b));
    }
  }

  function SignaturesHead(f: Frame): seq<string> {
    match FrameSignature(f.ids) case None => [] case Some(sig) => ["frame:" + sig]
  }

  lemma SignaturesStep(frames: seq<Frame>)
    requires frames != []
    ensures Signatures(frames) == SignaturesHead(frames[0]) + Signatures(frames[1..])
  {
  }

  lemma AssocLists(a: seq<string>, b: seq<string>, c: seq<string>)
    ensures a + (b + c) == (a + b) + c
  {
  }

  /** The exception type comes first. */
  lemma TypeLeads(e: Event, t: string)
    requires e.exceptionType == Some(t) && t != []
    ensures Components(e) != [] && Components(e)[0] == "type:" + Trim(t)
  {
  }

  /** Exactly the signatures of the frames that take part are in it, as frames. */
  lemma FramesReachMaterial(e: Event, sig: string)
    requires e.stacktrace.Some?
    ensures var frames := e.stacktrace.value;
            "frame:" + sig in Components(e) <==>
            exists i :: 0 <= i < |frames| && TakesPart(frames, i) && FrameSignature(frames[i].ids) == Some(sig)
  {
    var frames, c := e.stacktrace.value, "frame:" + sig;
    InAppFrames(frames);
    SignaturesOf(if InApp(frames) == [] then frames else InApp(frames), c);
    PrefixesDiffer(sig);
    if c in GroupingSignatures(frames) {
      var f :| f in frames && (InApp(frames) == [] || f.inApp == Some(true))
               && FrameSignature(f.ids).Some? && c == "frame:" + FrameSignature(f.ids).value;
      var i :| 0 <= i < |frames| && frames[i] == f;
      assert c[6..] == sig && ("frame:" + FrameSignature(f.ids).value)[6..] == FrameSignature(f.ids).value;
    }
    if i :| 0 <= i < |frames| && TakesPart(frames, i) && FrameSignature(frames[i].ids) == Some(sig) {
      assert frames[i] in frames;
    }
  }

  lemma PrefixesDiffer(sig: string)
    ensures forall s: string :: "frame:" + sig != "type:" + s && "frame:" + sig != "message:" + s && "frame:" + sig != "value:" + s
  {
    assert ("frame:" + sig)[0] == 'f';
    assert forall s: string :: ("type:" + s)[0] == 't' && ("message:" + s)[0] == 'm' && ("value:" + s)[0] == 'v';
  }

  /** And in order: an in-app frame's signature stands after those of the in-app frames before it. */
  lemma FramesInOrder(e: Event, a: seq<Frame>, f: Frame, b: seq<Frame>, sig: string)
    requires e.stacktrace == Some(a + [f] + b) && f.inApp == Some(true) && FrameSignature(f.ids) == Some(sig)
    ensures var k := |Signatures(InApp(a))| + (if NoText(e.exceptionType) then 0 else 1);
            k < |Components(e)| && Components(e)[k] == "frame:" + sig
  {
    InAppAround(a, f, b);
    SignaturesAround(InApp(a), f, InApp(b), sig);
  }

  lemma InAppAround(a: seq<Frame>, f: Frame, b: seq<Frame>)
    requires f.inApp == Some(true)
    ensures InApp(a + [f] + b) == InApp(a) + [f] + InApp(b)
  {
    InAppConcat(a + [f], b);
    InAppConcat(a, [f]);
    assert InApp([f]) == [f] + InApp([f][1..]);
  }

  lemma SignaturesAround(a: seq<Frame>, f: Frame, b: seq<Frame>, sig: string)
    requires FrameSignature(f.ids) == Some(sig)
    ensures Signatures(a + [f] + b) == Signatures(a) + ["frame:" + sig] + Signatures(b)
  {
    SignaturesConcat(a + [f], b);
    SignaturesConcat(a, [f]);
    SignaturesStep([f]);
    NoSignatures([f][1..]);
    assert SignaturesHead(f) + [] == ["frame:" + sig];
  }

  lemma NoSignatures(frames: seq<Frame>)
    requires frames == []
    ensures Signatures(frames) == []
  {
  }

  predicate NoText(s: Option<string>) { s == None || s == Some("") }

  /** Only without a type and without a signature does the message count, masked; and only without a message the
      exception value. */
  lemma TextIsLastResort(e: Event)
    requires NoText(e.exceptionType) && (e.stacktrace.Some? ==> GroupingSignatures(e.stacktrace.value) == [])
    ensures !NoText(e.message) ==> Components(e) == ["message:" + Normalize.NormalizeMessage(e.message.value)]
    ensures NoText(e.message) && !NoText(e.exceptionValue) ==>
              Components(e) == ["value:" + Normalize.NormalizeMessage(e.exceptionValue.value)]
    ensures NoText(e.message) && NoText(e.exceptionValue) ==> Components(e) == []
  {
  }

  lemma TextOtherwiseIgnored(e: Event, message: Option<string>, value: Option<string>)
    requires !NoText(e.exceptionType) || (e.stacktrace.Some? && GroupingSignatures(e.stacktrace.value) != [])
    ensures Components(e.(message := message, exceptionValue := value)) == Components(e) != []
  {
  }

  /** A usable part of a frame: given, and not empty once normalized. */
  predicate Usable(s: Option<string>, norm: string -> string, v: string) { s.Some? && norm(s.value) == v && v != [] }

  predicate Unusable(s: Option<string>, norm: string -> string) { s.Some? ==> norm(s.value) == [] }

  /** A frame is known by its module and function, or else by its module and path, or by what there is of these;
      the file name goes before the absolute path. */
  lemma SignaturePrecedence(f: FrameIds, m: string, n: string, p: string)
    ensures var path := if f.filename.Some? then f.filename else f.absPath;
            var hasM, noM := Usable(f.moduleName, NormalizeModule, m), Unusable(f.moduleName, NormalizeModule);
            var hasF, noF := Usable(f.function_, NormalizeFunction, n), Unusable(f.function_, NormalizeFunction);
            var hasP, noP := Usable(path, NormalizePath, p), Unusable(path, NormalizePath);
            && (hasF && hasM ==> FrameSignature(f) == Some(m + "." + n))
            && (hasF && noM ==> FrameSignature(f) == Some(n))
            && (noF && hasM && hasP ==> FrameSignature(f) == Some(m + "@" + p))
            && (noF && hasM && noP ==> FrameSignature(f) == Some(m))
            && (noF && noM && hasP ==> FrameSignature(f) == Some(p))
            && (noF && noM && noP ==> FrameSignature(f) == None)
  {
    var path := if f.filename.Some? then f.filename else f.absPath;
    MapOptionMeans(f.moduleName, NormalizeModule, m);
    MapOptionMeans(f.function_, NormalizeFunction, n);
    MapOptionMeans(path, NormalizePath, p);
    Precedence(MapOption(f.moduleName, NormalizeModule), MapOption(f.function_, NormalizeFunction), MapOption(path, NormalizePath));
  }

  lemma MapOptionMeans(s: Option<string>, norm: string -> string, v: string)
    ensures Usable(s, norm, v) <==> v != [] && MapOption(s, norm) == Some(v)
    ensures Unusable(s, norm) <==> MapOption(s, norm) == None
  {
  }

  lemma Precedence(m: Option<string>, n: Option<string>, p: Option<string>)
    ensures n.Some? && m.Some? ==> SignatureOf(m, n, p) == Some(m.value + "." + n.value)
    ensures n.Some? && m.None? ==> SignatureOf(m, n, p) == n
    ensures n.None? && m.Some? && p.Some? ==> SignatureOf(m, n, p) == Some(m.value + "@" + p.value)
    ensures n.None? && m.Some? && p.None? ==> SignatureOf(m, n, p) == m
    ensures n.None? && m.None? ==> SignatureOf(m, n, p) == p
  {
  }

  // ---- what a frame's parts leave out ----

  predicate OccursAt(s: string, pat: string, i: nat) { i + |pat| <= |s| && s[i..i + |pat|] == pat }

  lemma {:induction false} FindIsFirst(s: string, pat: string, i: nat)
    requires pat != [] && OccursAt(s, pat, i) && forall j :: 0 <= j < i ==> !OccursAt(s, pat, j)
    ensures Find(s, pat) == Some(i)
  {
    assert s[..|pat|] == s[0..0 + |pat|];
    if i > 0 {
      assert !OccursAt(s, pat, 0);
      assert s[1..][i - 1..i - 1 + |pat|] == s[i..i + |pat|];
      forall j | 0 <= j < i - 1
        ensures !OccursAt(s[1..], pat, j)
      {
        assert !OccursAt(s, pat, j + 1);
        assert j + |pat| <= |s| - 1 ==> s[1..][j..j + |pat|] == s[j + 1..j + 1 + |pat|];
      }
      FindIsFirst(s[1..], pat, i - 1);
    }
  }

  lemma {:induction false} RFindIsLast(s: string, pat: string, i: nat)
    requires pat != [] && OccursAt(s, pat, i) && forall j :: i < j ==> !OccursAt(s, pat, j)
    ensures RFind(s, pat) == Some(i)
    decreases |s|
  {
    var n := |s| - 1;
    if i + |pat| < |s| {
      assert !OccursAt(s, pat, |s| - |pat|);
      assert s[|s| - |pat|..] == s[|s| - |pat|..|s| - |pat| + |pat|];
      assert s[..n][i..i + |pat|] == s[i..i + |pat|];
      forall j | i < j
        ensures !OccursAt(s[..n], pat, j)
      {
        assert !OccursAt(s, pat, j);
        assert j + |pat| <= n ==> s[..n][j..j + |pat|] == s[j..j + |pat|];
      }
      RFindIsLast(s[..n], pat, i);
    }
  }

  /** The hash a Rust build adds to a symbol. */
  lemma RustHashDropped(symbol: string, hash: string)
    requires |hash| >= 12 && AllHex(hash)
    ensures StripRustHash(symbol + "::h" + hash) == symbol
  {
    var s, k := symbol + "::h" + hash, |symbol|;
    assert s[k..k + 3] == "::h" && s[k + 3..] == hash && s[..k] == symbol;
    forall j | k < j
      ensures !OccursAt(s, "::h", j)
    {
      NoColonAfter(symbol, hash, j);
    }
    RFindIsLast(s, "::h", k);
  }

  lemma NoColonAfter(symbol: string, hash: string, j: nat)
    requires AllHex(hash) && |symbol| < j
    ensures !OccursAt(symbol + "::h" + hash, "::h", j)
  {
    var s := symbol + "::h" + hash;
    if j + 3 <= |s| {
      assert s[j..j + 3][1] == s[j + 1] && "::h"[1] == ':';
      if j == |symbol| + 1 {
        assert s[j + 1] == "::h"[2] == 'h';
      } else {
        assert s[j + 1] == hash[j + 1 - |symbol| - 3];
        assert IsHex(s[j + 1]);
      }
    }
  }

  /** The offset of an address within a function. */
  lemma OffsetDropped(name: string, offset: string)
    requires Trimmed(name + "+0x" + offset) && StripRustHash(name + "+0x" + offset) == name + "+0x" + offset
    requires '+' !in name
    ensures NormalizeFunction(name + "+0x" + offset) == Trim(name)
  {
    var s := name + "+0x" + offset;
    TrimFixpoint(s);
    assert s[|name|..|name| + 3] == "+0x" && s[..|name|] == name;
    forall j | 0 <= j < |name|
      ensures !OccursAt(s, "+0x", j)
    {
      assert s[j] == name[j] && (j + 3 <= |s| ==> s[j..j + 3][0] == s[j]);
    }
    FindIsFirst(s, "+0x", |name|);
  }

  /** The query of a URL. */
  lemma QueryDropped(path: string, query: string)
    requires Trimmed(path) && Trimmed(path + "?" + query) && '?' !in path
    ensures NormalizePath(path + "?" + query) == NormalizePath(path)
  {
    var s := path + "?" + query;
    TrimFixpoint(s);
    TrimFixpoint(path);
    assert s[|path|..|path| + 1] == "?" && s[..|path|] == path;
    forall j | 0 <= j < |path|
      ensures !OccursAt(s, "?", j)
    {
      assert s[j] == path[j] && s[j..j + 1][0] == s[j];
    }
    FindIsFirst(s, "?", |path|);
    NotFound(path, "?");
  }

  lemma {:induction false} NotFound(s: string, pat: string)
    requires |pat| == 1 && pat[0] !in s
    ensures Find(s, pat) == None
  {
    if s != [] {
      assert s[..1][0] == s[0];
      NotFound(s[1..], pat);
    }
  }

  /** The content hash in a bundle's file name. */
  lemma BundleHashDropped(dir: string, name: string, hash: string, ext: string)
    requires (dir == [] || dir[|dir| - 1] == '/') && '/' !in name && IsHashLike(hash) && '/' !in ext && '.' !in ext
    ensures StripBundleHash(dir + ((name + ['.'] + hash) + ['.'] + ext)) == dir + (name + (['.'] + ext))
  {
    var file := (name + ['.'] + hash) + ['.'] + ext;
    HashHasNo(hash);
    LastSlash(dir, file);
    assert (dir + file)[..|dir|] == dir && (dir + file)[|dir|..] == file;
    FileHashDropped(name, hash, ext);
  }

  lemma HashHasNo(hash: string)
    requires IsHashLike(hash)
    ensures '/' !in hash && '.' !in hash
  {
    assert forall i :: 0 <= i < |hash| ==> IsAlnum(hash[i]);
  }

  lemma FileHashDropped(name: string, hash: string, ext: string)
    requires IsHashLike(hash) && '.' !in ext
    ensures StripFileHash((name + ['.'] + hash) + ['.'] + ext) == name + (['.'] + ext)
  {
    var stem := name + ['.'] + hash;
    var file := stem + ['.'] + ext;
    LastOf(stem, '.', ext);
    Parted(stem, '.', ext);
    StemHashDropped(name, hash);
  }

  lemma Parted(a: string, c: char, b: string)
    ensures var s := a + [c] + b; s[..|a|] == a && s[|a|..] == [c] + b && s[|a| + 1..] == b
  {
  }

  lemma StemHashDropped(name: string, hash: string)
    requires IsHashLike(hash)
    ensures StripStemHash(name + ['.'] + hash) == name
  {
    var stem := name + ['.'] + hash;
    HashHasNo(hash);
    LastOf(name, '.', hash);
    Parted(name, '.', hash);
  }

  lemma {:induction false} LastOf(a: string, c: char, b: string)
    requires c !in b
    ensures RFind(a + [c] + b, [c]) == Some(|a|)
    decreases |b|
  {
    var s, n := a + [c] + b, |b| - 1;
    if b == [] {
      assert s[|s| - 1..] == [c];
    } else {
      assert s[|s| - 1..][0] == b[n];
      assert s[..|s| - 1] == a + [c] + b[..n];
      LastOf(a, c, b[..n]);
    }
  }

  lemma LastSlash(dir: string, file: string)
    requires (dir == [] || dir[|dir| - 1] == '/') && '/' !in file
    ensures RFind(dir + file, "/") == if dir == [] then None else Some(|dir| - 1)
  {
    if dir == [] {
      assert dir + file == file;
      RNotFound(file, "/");
    } else {
      assert dir + file == dir[..|dir| - 1] + ['/'] + file;
      LastOf(dir[..|dir| - 1], '/', file);
    }
  }

  lemma {:induction false} RNotFound(s: string, pat: string)
    requires |pat| == 1 && pat[0] !in s
    ensures RFind(s, pat) == None
    decreases |s|
  {
    if s != [] {
      assert s[|s| - 1..][0] == s[|s| - 1];
      RNotFound(s[..|s| - 1], pat);
    }
  }

  // ---- component boundaries ----

  function Split(s: string, sep: char): (r: seq<string>)
    ensures r != []
    ensures forall i :: 0 <= i < |r| ==> sep !in r[i]
    decreases |s|
  {
    if s == [] then [[]]
    else
      var rest := Split(s[1..], sep);
      if s[0] == sep then [[]] + rest else [[s[0]] + rest[0]] + rest[1..]
  }

  lemma {:induction false} SplitAppend(p: string, sep: char, rest: string)
    ensures Split(p + [sep] + rest, sep) == Split(p, sep) + Split(rest, sep)
    decreases |p|
  {
    var s := p + [sep] + rest;
    if p == [] {
      assert s[1..] == rest;
    } else {
      assert s[1..] == p[1..] + [sep] + rest;
      SplitAppend(p[1..], sep, rest);
    }
  }

  lemma {:induction false} SplitPlain(p: string, sep: char)
    requires sep !in p
    ensures Split(p, sep) == [p]
    decreases |p|
  {
    if p != [] {
      SplitPlain(p[1..], sep);
      assert [p[0]] + p[1..] == p;
    }
  }

  lemma {:induction false} SplitThenJoin(s: string, sep: char)
    ensures Join(Split(s, sep), sep) == s
    decreases |s|
  {
    if s != [] {
      var rest := Split(s[1..], sep);
      SplitThenJoin(s[1..], sep);
      if s[0] == sep {
        assert ([[]] + rest)[1..] == rest;
      } else if |rest| > 1 {
        assert ([[s[0]] + rest[0]] + rest[1..])[1..] == rest[1..];
      }
    }
  }

  /** Each component broken at its own separators, all in a row. */
  function Pieces(parts: seq<string>, sep: char): seq<string> {
    if parts == [] then [] else Split(parts[0], sep) + Pieces(parts[1..], sep)
  }

  lemma {:induction false} JoinThenSplit(parts: seq<string>, sep: char)
    requires parts != []
    ensures Split(Join(parts, sep), sep) == Pieces(parts, sep)
  {
    if |parts| == 1 {
      assert Pieces(parts, sep) == Split(parts[0], sep);
    } else {
      JoinThenSplit(parts[1..], sep);
      SplitAppend(parts[0], sep, Join(parts[1..], sep));
    }
  }

  /** Two component lists give the same material, hence the same fingerprint. */
  predicate Collide(a: seq<string>, b: seq<string>, sep: char) { Join(a, sep) == Join(b, sep) }

  /** Two lists have the same joined material exactly when they break into the same pieces. */
  lemma CollideExactly(a: seq<string>, b: seq<string>, sep: char)
    requires a != [] && b != []
    ensures Collide(a, b, sep) <==> Pieces(a, sep) == Pieces(b, sep)
  {
    JoinThenSplit(a, sep);
    JoinThenSplit(b, sep);
    SplitThenJoin(Join(a, sep), sep);
    SplitThenJoin(Join(b, sep), sep);
  }

  predicate Free(parts: seq<string>, sep: char) { forall i :: 0 <= i < |parts| ==> sep !in parts[i] }

  lemma {:induction false} PiecesOfFree(parts: seq<string>, sep: char)
    ensures Pieces(parts, sep) == parts <==> Free(parts, sep)
    ensures Free(Pieces(parts, sep), sep)
  {
    if parts != [] {
      PiecesOfFree(parts[1..], sep);
      if Free(parts, sep) {
        assert sep !in parts[0];
        SplitPlain(parts[0], sep);
        assert forall i :: 0 <= i < |parts| - 1 ==> parts[1..][i] == parts[i + 1];
      }
    }
  }

  /** Lists free of the separator never collide with each other. */
  lemma FreeListsDiffer(a: seq<string>, b: seq<string>, sep: char)
    requires a != [] && b != [] && Free(a, sep) && Free(b, sep)
    ensures Collide(a, b, sep) <==> a == b
  {
    CollideExactly(a, b, sep);
    PiecesOfFree(a, sep);
    PiecesOfFree(b, sep);
  }

  /** A list collides with no other list whatever exactly when it is a single component free of the
      separator: any longer list shares its material with its own joined text. */
  lemma UniqueExactly(a: seq<string>, sep: char)
    requires a != []
    ensures (forall b :: b != [] && Collide(a, b, sep) ==> b == a) <==> |a| == 1 && sep !in a[0]
  {
    var whole := Join(a, sep);
    SplitThenJoin(whole, sep);
    JoinThenSplit(a, sep);
    PiecesOfFree(a, sep);
    if |a| == 1 && sep !in a[0] {
      forall b | b != [] && Collide(a, b, sep)
        ensures b == a
      {
        CollideExactly(a, b, sep);
        NoFewerPieces(b, sep);
      }
    } else {
      var b := if |a| > 1 then [whole] else Split(whole, sep);
      assert b != [] && Collide(a, b, sep) && b != a;
    }
  }

  lemma {:induction false} NoFewerPieces(b: seq<string>, sep: char)
    ensures |Pieces(b, sep)| >= |b|
  {
    if b != [] {
      NoFewerPieces(b[1..], sep);
    }
  }

  /** Components without a line break are told apart by the default material. */
  lemma DefaultMaterialSeparates(a: Event, b: Event)
    requires Components(a) != [] && Components(b) != [] && Free(Components(a), '\n') && Free(Components(b), '\n')
    ensures DefaultMaterial(a) == DefaultMaterial(b) <==> Components(a) == Components(b)
  {
    FreeListsDiffer(Components(a), Components(b), '\n');
  }

  // ---- what two events share ----

  const UNIT: char := '\U{1F}'

  /** What is joined for an event: its components with the placeholder expanded, or the default alone. */
  function Parts(e: Event): (r: seq<string>)
    ensures r != []
  {
    if e.fingerprint == [] then [DefaultMaterial(e)] else Expand(e.fingerprint, DefaultMaterial(e))
  }

  function Material(e: Event): string { Join(Parts(e), UNIT) }

  /** The fingerprint of every event, default or custom, is the hash of its joined parts. */
  lemma FingerprintIsJoined(e: Event)
    ensures Fingerprint(e) == Hash(Material(e))
  {
  }

  /** Two events hash the same material exactly when their parts, placeholders expanded, break into the same
      pieces at the separator. */
  lemma MaterialsCollideExactly(a: Event, b: Event)
    ensures Material(a) == Material(b) <==> Pieces(Parts(a), UNIT) == Pieces(Parts(b), UNIT)
  {
    CollideExactly(Parts(a), Parts(b), UNIT);
  }

  /** The list names no placeholder. */
  predicate Plain(e: Event) { forall i :: 0 <= i < |e.fingerprint| ==> !IsDefaultPlaceholder(e.fingerprint[i]) }

  /** No component holds the separator, nor does the default material if the list refers to it. */
  predicate Separable(e: Event) {
    e.fingerprint != [] && Free(e.fingerprint, UNIT) && (Plain(e) || UNIT !in DefaultMaterial(e))
  }

  /** Such lists share their material only if they are equal once expanded, and without a placeholder only if
      they are equal as given. */
  lemma SeparableListsDiffer(a: Event, b: Event)
    requires Separable(a) && Separable(b)
    ensures Material(a) == Material(b) <==> Parts(a) == Parts(b)
    ensures Plain(a) && Plain(b) ==> (Material(a) == Material(b) <==> a.fingerprint == b.fingerprint)
  {
    SeparablePartsAreFree(a);
    SeparablePartsAreFree(b);
    FreeListsDiffer(Parts(a), Parts(b), UNIT);
  }

  lemma SeparablePartsAreFree(e: Event)
    requires Separable(e)
    ensures Free(Parts(e), UNIT) && (Plain(e) ==> Parts(e) == e.fingerprint)
  {
  }

  lemma JoinPair(a: string, b: string, sep: char)
    ensures Join([a, b], sep) == a + [sep] + b == Join([a + [sep] + b], sep)
  {
    assert [a, b][1..] == [b];
  }

  lemma PlainPair(e: Event, a: string, b: string)
    requires !IsDefaultPlaceholder(a) && !IsDefaultPlaceholder(b)
    ensures Fingerprint(e.(fingerprint := [a, b])) == Hash(a + [UNIT] + b)
  {
    var y := e.(fingerprint := [a, b]);
    FingerprintIsJoined(y);
    assert Parts(y) == [a, b];
    JoinPair(a, b, UNIT);
  }

  lemma PlainOne(e: Event, a: string)
    requires !IsDefaultPlaceholder(a)
    ensures Fingerprint(e.(fingerprint := [a])) == Hash(a)
  {
    var x := e.(fingerprint := [a]);
    assert Parts(x) == [a];
    FingerprintIsJoined(x);
  }

  /** A component holding the control character does collide with the list it spells out. */
  lemma BoundaryCollision(e: Event, a: string, b: string)
    requires !IsDefaultPlaceholder(a) && !IsDefaultPlaceholder(b) && !IsDefaultPlaceholder(a + [UNIT] + b)
    ensures Fingerprint(e.(fingerprint := [a + [UNIT] + b])) == Fingerprint(e.(fingerprint := [a, b]))
  {
    PlainOne(e, a + [UNIT] + b);
    PlainPair(e, a, b);
  }

  /** Every list of two or more components collides with the one component that spells it out. */
  lemma LongListsCollide(e: Event)
    requires |e.fingerprint| >= 2
    ensures [Material(e)] != e.fingerprint && Fingerprint(e.(fingerprint := [Material(e)])) == Fingerprint(e)
  {
    JoinHasSeparator(Parts(e), UNIT);
    NoPlaceholderHasUnit(Material(e));
    PlainOne(e, Material(e));
    FingerprintIsJoined(e);
  }

  lemma JoinHasSeparator(parts: seq<string>, sep: char)
    requires |parts| >= 2
    ensures sep in Join(parts, sep)
  {
    assert Join(parts, sep)[|parts[0]|] == sep;
  }

  lemma NoPlaceholderHasUnit(s: string)
    requires UNIT in s
    ensures !IsDefaultPlaceholder(s)
  {
    TrimKeeps(s, UNIT);
  }

  /** So does the placeholder, of an event whose default material holds it, although the list does not. */
  lemma PlaceholderCollision(e: Event, placeholder: string, a: string, b: string)
    requires IsDefaultPlaceholder(placeholder) && !IsDefaultPlaceholder(a) && !IsDefaultPlaceholder(b)
    requires DefaultMaterial(e) == a + [UNIT] + b
    ensures Fingerprint(e.(fingerprint := [placeholder])) == Fingerprint(e.(fingerprint := [a, b]))
  {
    DefaultPlaceholderReproducesDefault(e, placeholder);
    MaterialIgnoresList(e, []);
    PlainPair(e, a, b);
  }

  lemma MaterialIgnoresList(e: Event, list: seq<string>)
    ensures DefaultMaterial(e.(fingerprint := list)) == DefaultMaterial(e)
  {
    assert Components(e.(fingerprint := list)) == Components(e);
  }

  lemma TypeMaterial(e: Event, t: string)
    requires e.exceptionType == Some(t) && t != [] && Trimmed(t) && e.stacktrace.None?
    ensures DefaultMaterial(e) == "type:" + t
  {
    TrimFixpoint(t);
    assert Components(e) == ["type:" + t];
  }

  /** An exception type with the control character is enough. */
  lemma TypeCollision(e: Event)
    requires e.exceptionType == Some("A\U{1F}B") && e.stacktrace.None?
    ensures Fingerprint(e.(fingerprint := ["{{ default }}"])) == Fingerprint(e.(fingerprint := ["type:A", "B"]))
  {
    TypeMaterial(e, "A\U{1F}B");
    assert "type:" + "A\U{1F}B" == "type:A" + [UNIT] + "B";
    TrimFixpoint("{{ default }}");
    TrimFixpoint("type:A");
    TrimFixpoint("B");
    assert |"type:A"| == 6 && |"B"| == 1 && |"{{ default }}"| == 13 && |"{{default}}"| == 11;
    PlaceholderCollision(e, "{{ default }}", "type:A", "B");
  }
}
