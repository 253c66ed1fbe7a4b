/** The link printer and the link parser undo each other (core/links.py). */
module LinkRoundTrip {
  import opened Basics
  import opened Regex
  import opened Links

  /** A non-empty id, key or handle. */
  predicate Clean(s: string) { s != "" && forall i :: 0 <= i < |s| ==> Base64Url(s[i]) }

  type Part = s: string | Clean(s) witness "a"

  type NestedKind = k: LinkKind | k.FileInFolder? || k.FolderInFolder? witness FileInFolder

  /** The ways MEGA writes a link to a file, a folder, or a file or folder inside a shared folder. */
  datatype Spelling =
    | ModernFile(id: Part, fragment: Option<Part>)
    | ModernFilePart(id: Part, key: Part, part: Part)
    | ModernFolder(id: Part, fragment: Option<Part>)
    | ModernInner(id: Part, fragment: Option<Part>, kind: NestedKind, inner: Part)
    | LegacyFile(id: Part, key: Part)
    | LegacyFolder(id: Part, key: Part)
    | LegacySub(id: Part, sub: Part, key: Part)
    | LegacyTrailer(id: Part, key: Part, handle: Part)
    | Compact(file: Part, id: Part, key: Part)
    | Node(file: Part, id: Part, key: Part)

  function Fragment(key: Option<string>): string {
    match key
    case Some(k) => "#" + k
    case None => ""
  }

  function KindWord(kind: LinkKind): string { if kind.FileInFolder? then "file" else "folder" }

  function Trailer(kind: LinkKind, inner: string): string { "/" + (KindWord(kind) + ("/" + inner)) }

  /** What follows the site. */
  function Body(sp: Spelling): string {
    match sp
    case ModernFile(id, key) => "/file/" + (id + (Fragment(key) + ""))
    case ModernFilePart(id, key, part) => "/file/" + (id + (Fragment(Some(key)) + ("!" + part)))
    case ModernFolder(id, key) => "/folder/" + (id + (Fragment(key) + ""))
    case ModernInner(id, key, kind, inner) => "/folder/" + (id + (Fragment(key) + Trailer(kind, inner)))
    case LegacyFile(id, key) => "/#!" + (id + ("!" + key))
    case LegacyFolder(id, key) => "/#F!" + (id + ("!" + key))
    case LegacySub(id, sub, key) => "/#F!" + (id + ("@" + (sub + ("!" + key))))
    case LegacyTrailer(id, key, handle) => "/#F!" + (id + ("!" + (key + ("!" + handle))))
    case Compact(file, id, key) => "/#F*" + (file + ("!" + (id + ("!" + key))))
    case Node(file, id, key) => "/#N!" + (file + ("!" + (id + ("!" + key))))
  }

  function Meaning(sp: Spelling): ParsedLink {
    match sp
    case ModernFile(id, key) => Link(File, id, key, None)
    case ModernFilePart(id, key, part) => Link(File, id, Some(key), Some(part))
    case ModernFolder(id, key) => Link(Folder, id, key, None)
    case ModernInner(id, key, kind, inner) => Link(kind, id, key, Some(inner))
    case LegacyFile(id, key) => Link(File, id, Some(key), None)
    case LegacyFolder(id, key) => Link(Folder, id, Some(key), None)
    case LegacySub(id, sub, key) => Link(FolderInFolder, id, Some(key), Some(sub))
    case LegacyTrailer(id, key, handle) => Link(FileInFolder, id, Some(key), Some(handle))
    case Compact(file, id, key) => Link(FileInFolder, id, Some(key), Some(file))
    case Node(file, id, key) => Link(FileInFolder, id, Some(key), Some(file))
  }

  datatype Site = Site(secure: bool, coNz: bool)

  function SiteText(w: Site): string {
    "http" + ((if w.secure then "s" else "") + ("://mega" + ((if w.coNz then ".co" else "") + ".nz")))
  }

  // ---- The site part matches in one way

  /** An optional text, present or not, that can be read in one way only. */
  lemma OptLit(text: string, present: bool, next: Re, rest: string, caps: map<string, string>)
    requires present ==> Fails(next, text + rest, caps)
    requires !present ==> !(text <= rest)
    ensures Runs(Cat(Opt(Lit(text)), next), (if present then text else "") + rest, caps) == Runs(next, rest, caps)
  {
    if present {
      var s := text + rest;
      assert s[|text|..] == rest;
      assert Runs(Opt(Lit(text)), s, caps) == [Hit(rest, caps), Hit(s, caps)];
      CatOfTwo(next, rest, s, caps);
    } else {
      assert "" + rest == rest;
      assert Runs(Opt(Lit(text)), rest, caps) == [Hit(rest, caps)];
      CatOfOne(Opt(Lit(text)), next, rest, caps, rest, caps);
    }
  }

  lemma CatOfTwo(next: Re, rest: string, s: string, caps: map<string, string>)
    requires Fails(next, s, caps)
    ensures Each([Hit(rest, caps), Hit(s, caps)], next) == Runs(next, rest, caps)
  {
    var one := [Hit(s, caps)];
    assert [Hit(rest, caps), Hit(s, caps)][1..] == one && one[1..] == [];
    assert Each(one, next) == Runs(next, s, caps) + Each([], next);
  }

  lemma AfterLit(text: string, next: Re, rest: string, caps: map<string, string>)
    ensures Runs(Cat(Lit(text), next), text + rest, caps) == Runs(next, rest, caps)
  {
    assert (text + rest)[|text|..] == rest;
    CatOfOne(Lit(text), next, text + rest, caps, rest, caps);
  }

  /** Texts that differ at a position. */
  lemma NotOpening(a: string, b: string, i: nat)
    requires i < |a| && i < |b| && a[i] != b[i]
    ensures !(a <= b)
  {
  }

  const HOST: Re := Cat(Opt(Lit(".co")), Lit(".nz"))

  lemma HostMatches(coNz: bool, rest: string)
    ensures Runs(HOST, (if coNz then ".co" else "") + (".nz" + rest), map[]) == [Hit(rest, map[])]
  {
    var no: map<string, string> := map[];
    NotOpening(".nz", ".co" + (".nz" + rest), 1);
    NotOpening(".co", ".nz" + rest, 1);
    OptLit(".co", coNz, Lit(".nz"), ".nz" + rest, no);
    assert (".nz" + rest)[3..] == rest;
  }

  lemma SchemeMatches(secure: bool, host: string)
    ensures Runs(Cat(Opt(Lit("s")), Cat(Lit("://mega"), HOST)), (if secure then "s" else "") + ("://mega" + host), map[]) == Runs(HOST, host, map[])
  {
    NotOpening("://mega", "s" + ("://mega" + host), 0);
    CatFails(Lit("://mega"), HOST, "s" + ("://mega" + host), map[]);
    NotOpening("s", "://mega" + host, 0);
    OptLit("s", secure, Cat(Lit("://mega"), HOST), "://mega" + host, map[]);
    AfterLit("://mega", HOST, host, map[]);
  }

  lemma SiteMatches(w: Site, rest: string)
    ensures Runs(SITE, SiteText(w) + rest, map[]) == [Hit(rest, map[])]
  {
    var host := (if w.coNz then ".co" else "") + (".nz" + rest);
    var tail := (if w.secure then "s" else "") + ("://mega" + host);
    HostMatches(w.coNz, rest);
    SchemeMatches(w.secure, host);
    AfterLit("http", Cat(Opt(Lit("s")), Cat(Lit("://mega"), HOST)), tail, map[]);
    SiteSplits(w, rest);
  }

  lemma SiteSplits(w: Site, rest: string)
    ensures SiteText(w) + rest == "http" + ((if w.secure then "s" else "") + ("://mega" + ((if w.coNz then ".co" else "") + (".nz" + rest))))
  {
    var co, s := if w.coNz then ".co" else "", if w.secure then "s" else "";
    Regroup(co, ".nz", rest);
    Regroup("://mega", co + ".nz", rest);
    Regroup(s, "://mega" + (co + ".nz"), rest);
    Regroup("http", s + ("://mega" + (co + ".nz")), rest);
  }

  lemma Regroup(a: string, b: string, c: string)
    ensures (a + b) + c == a + (b + c)
  {
  }

  /** A pattern behind the site matches as its own part does. */
  lemma BehindSite(w: Site, re: Re, rest: string)
    ensures Runs(Cat(SITE, re), SiteText(w) + rest, map[]) == Runs(re, rest, map[])
  {
    SiteMatches(w, rest);
    CatOfOne(SITE, re, SiteText(w) + rest, map[], rest, map[]);
  }

  /** A pattern whose opening text is not there. */
  lemma WrongOpening(w: Site, opening: string, re: Re, rest: string)
    requires !(opening <= rest)
    ensures Match(Cat(SITE, Cat(Lit(opening), re)), SiteText(w) + rest) == None
  {
    BehindSite(w, Cat(Lit(opening), re), rest);
    CatFails(Lit(opening), re, rest, map[]);
  }

  // ---- The parts of a link, one at a time

  lemma CleanRun(x: Part, cls: char -> bool)
    requires forall c :: Base64Url(c) ==> cls(c)
    ensures x != "" && forall i :: 0 <= i < |x| ==> cls(x[i])
  {
  }

  /** What may follow a clean part: nothing, or a character its class excludes. */
  predicate Stops(rest: string, chars: string) { rest == "" || rest[0] in chars }

  lemma TakeCapture(name: string, chars: string, x: Part, rest: string, caps: map<string, string>)
    requires (forall c :: c in chars ==> !Base64Url(c)) && Stops(rest, chars)
    ensures First(Group(name, Run(NotIn(chars))), x + rest, caps, rest, caps[name := x])
  {
    CleanRun(x, NotIn(chars));
    FirstCapture(name, NotIn(chars), x, rest, caps);
  }

  lemma TakeLast(name: string, x: Part, caps: map<string, string>)
    ensures First(Cat(Group(name, Run(ANY)), End), x, caps, "", caps[name := x])
  {
    CleanRun(x, ANY);
    FirstCapture(name, ANY, x, "", caps);
    assert x + "" == x;
    FirstCat(Group(name, Run(ANY)), End, x, caps, "", caps[name := x], "", caps[name := x]);
  }

  /** A literal, then the rest of the pattern. */
  lemma TakeLit(text: string, next: Re, s: string, caps: map<string, string>, rest: string, caps': map<string, string>)
    requires First(next, s, caps, rest, caps')
    ensures First(Cat(Lit(text), next), text + s, caps, rest, caps')
  {
    FirstLit(text, s, caps);
    FirstCat(Lit(text), next, text + s, caps, s, caps, rest, caps');
  }

  /** A captured part, then the rest of the pattern. */
  lemma TakePart(name: string, chars: string, x: Part, next: Re, s: string, caps: map<string, string>, rest: string, caps': map<string, string>)
    requires (forall c :: c in chars ==> !Base64Url(c)) && Stops(s, chars)
    requires First(next, s, caps[name := x], rest, caps')
    ensures First(Cat(Group(name, Run(NotIn(chars))), next), x + s, caps, rest, caps')
  {
    TakeCapture(name, chars, x, s, caps);
    FirstCat(Group(name, Run(NotIn(chars))), next, x + s, caps, s, caps[name := x], rest, caps');
  }

  lemma SkipOpt(text: string, part: Re, next: Re, s: string, caps: map<string, string>, rest: string, caps': map<string, string>)
    requires !(text <= s) && First(next, s, caps, rest, caps')
    ensures First(Cat(Opt(Cat(Lit(text), part)), next), s, caps, rest, caps')
  {
    CatFails(Lit(text), part, s, caps);
    FirstOptSkipped(Cat(Lit(text), part), s, caps);
    FirstCat(Opt(Cat(Lit(text), part)), next, s, caps, s, caps, rest, caps');
  }

  lemma TakeOpt(a: Re, next: Re, s: string, caps: map<string, string>, mid: string, caps1: map<string, string>, rest: string, caps2: map<string, string>)
    requires First(a, s, caps, mid, caps1) && First(next, mid, caps1, rest, caps2)
    ensures First(Cat(Opt(a), next), s, caps, rest, caps2)
  {
    FirstOptTaken(a, s, caps, mid, caps1);
    FirstCat(Opt(a), next, s, caps, mid, caps1, rest, caps2);
  }

  function WithKey(caps: map<string, string>, key: Option<string>): map<string, string> {
    if key.Some? then caps["key" := key.value] else caps
  }

  /** The optional `#key` of a modern link. */
  lemma TakeFragment(key: Option<Part>, next: Re, s: string, caps: map<string, string>, rest: string, caps': map<string, string>)
    requires Stops(s, "!?/")
    requires First(next, s, WithKey(caps, key), rest, caps')
    ensures First(Cat(Opt(Cat(Lit("#"), Group("key", Run(NotIn("!?/"))))), next), Fragment(key) + s, caps, rest, caps')
  {
    var part := Group("key", Run(NotIn("!?/")));
    match key
    case Some(k) =>
      TakeCapture("key", "!?/", k, s, caps);
      TakeLit("#", part, k + s, caps, s, caps["key" := k]);
      Regroup("#", k, s);
      TakeOpt(Cat(Lit("#"), part), next, "#" + (k + s), caps, s, caps["key" := k], rest, caps');
    case None =>
      assert "" + s == s;
      if s != "" { NotOpening("#", s, 0); }
      SkipOpt("#", part, next, s, caps, rest, caps');
  }

  function Caps1(a: string, x: string): map<string, string> { map[][a := x] }

  /** A file pattern from its id on, given how the part after the fragment matches. */
  lemma FileHead(id: Part, key: Option<Part>, tail: string, caps: map<string, string>)
    requires Stops(tail, "!") && (key.None? ==> tail == "")
    requires First(Cat(Opt(Cat(Lit("!"), Group("sub", Run(ANY)))), End), tail, WithKey(Caps1("id", id), key), "", caps)
    ensures First(FileBody(), "/file/" + (id + (Fragment(key) + tail)), map[], "", caps)
  {
    var last := Cat(Opt(Cat(Lit("!"), Group("sub", Run(ANY)))), End);
    var fragment := Cat(Opt(Cat(Lit("#"), Group("key", Run(NotIn("!?/"))))), last);
    TakeFragment(key, last, tail, Caps1("id", id), "", caps);
    var s := Fragment(key) + tail;
    assert Stops(s, "#?/") by { if key.Some? { assert s[0] == '#'; } else { assert s == tail; } }
    TakePart("id", "#?/", id, fragment, s, map[], "", caps);
    TakeLit("/file/", Cat(Group("id", Run(NotIn("#?/"))), fragment), id + s, map[], "", caps);
  }

  lemma ModernFileMatches(id: Part, key: Option<Part>)
    ensures First(FileBody(), Body(ModernFile(id, key)), map[], "", WithKey(Caps1("id", id), key))
  {
    var caps := WithKey(Caps1("id", id), key);
    SkipOpt("!", Group("sub", Run(ANY)), End, "", caps, "", caps);
    FileHead(id, key, "", caps);
  }

  lemma FilePartMatches(id: Part, key: Part, part: Part)
    ensures First(FileBody(), Body(ModernFilePart(id, key, part)), map[], "", WithKey(Caps1("id", id), Some(key))["sub" := part])
  {
    var caps := WithKey(Caps1("id", id), Some(key));
    var full := caps["sub" := part];
    CleanRun(part, ANY);
    FirstCapture("sub", ANY, part, "", caps);
    assert part + "" == part;
    TakeLit("!", Group("sub", Run(ANY)), part, caps, "", full);
    TakeOpt(Cat(Lit("!"), Group("sub", Run(ANY))), End, "!" + part, caps, "", full, "", full);
    FileHead(id, Some(key), "!" + part, full);
  }

  /** A folder pattern from its id on, given how the part after the fragment matches. */
  lemma FolderHead(id: Part, key: Option<Part>, tail: string, caps: map<string, string>)
    requires Stops(tail, "/")
    requires First(Cat(Opt(TrailerPart()), End), tail, WithKey(Caps1("id", id), key), "", caps)
    ensures First(FolderBody(), "/folder/" + (id + (Fragment(key) + tail)), map[], "", caps)
  {
    var last := Cat(Opt(TrailerPart()), End);
    var fragment := Cat(Opt(Cat(Lit("#"), Group("key", Run(NotIn("!?/"))))), last);
    TakeFragment(key, last, tail, Caps1("id", id), "", caps);
    var s := Fragment(key) + tail;
    assert Stops(s, "#?/") by { if key.Some? { assert s[0] == '#'; } else { assert s == tail; } }
    TakePart("id", "#?/", id, fragment, s, map[], "", caps);
    TakeLit("/folder/", Cat(Group("id", Run(NotIn("#?/"))), fragment), id + s, map[], "", caps);
  }

  lemma ModernFolderMatches(id: Part, key: Option<Part>)
    ensures First(FolderBody(), Body(ModernFolder(id, key)), map[], "", WithKey(Caps1("id", id), key))
  {
    var caps := WithKey(Caps1("id", id), key);
    SkipOpt("/", Cat(Group("kind", Alt(Lit("file"), Lit("folder"))), Cat(Lit("/"), Group("inner", Run(NotIn("#?/"))))), End, "", caps, "", caps);
    FolderHead(id, key, "", caps);
  }

  lemma KindMatches(kind: LinkKind, rest: string, caps: map<string, string>)
    ensures First(Group("kind", Alt(Lit("file"), Lit("folder"))), KindWord(kind) + rest, caps, rest, caps["kind" := KindWord(kind)])
  {
    var word := KindWord(kind);
    FirstLit(word, rest, caps);
    if !kind.FileInFolder? { NotOpening("file", word + rest, 1); }
    FirstGroup("kind", Alt(Lit("file"), Lit("folder")), word, rest, caps, caps);
  }

  lemma TrailerMatches(kind: NestedKind, inner: Part, caps: map<string, string>)
    ensures First(TrailerPart(), Trailer(kind, inner), caps, "", caps["kind" := KindWord(kind)]["inner" := inner])
  {
    var kinded := caps["kind" := KindWord(kind)];
    var full := kinded["inner" := inner];
    var last := Group("inner", Run(NotIn("#?/")));
    TakeCapture("inner", "#?/", inner, "", kinded);
    assert inner + "" == inner;
    TakeLit("/", last, inner, kinded, "", full);
    KindMatches(kind, "/" + inner, caps);
    var two := Cat(Group("kind", Alt(Lit("file"), Lit("folder"))), Cat(Lit("/"), last));
    FirstCat(Group("kind", Alt(Lit("file"), Lit("folder"))), Cat(Lit("/"), last), KindWord(kind) + ("/" + inner), caps, "/" + inner, kinded, "", full);
    TakeLit("/", two, KindWord(kind) + ("/" + inner), caps, "", full);
  }

  lemma ModernInnerMatches(id: Part, key: Option<Part>, kind: NestedKind, inner: Part)
    ensures First(FolderBody(), Body(ModernInner(id, key, kind, inner)), map[], "",
                  WithKey(Caps1("id", id), key)["kind" := KindWord(kind)]["inner" := inner])
  {
    var caps := WithKey(Caps1("id", id), key);
    var full := caps["kind" := KindWord(kind)]["inner" := inner];
    TrailerMatches(kind, inner, caps);
    TakeOpt(TrailerPart(), End, Trailer(kind, inner), caps, "", full, "", full);
    FolderHead(id, key, Trailer(kind, inner), full);
  }

  lemma LegacyFileMatches(id: Part, key: Part)
    ensures First(LegacyFileBody(), Body(LegacyFile(id, key)), map[], "", Caps1("id", id)["key" := key])
  {
    var full := Caps1("id", id)["key" := key];
    var last := Cat(Group("key", Run(ANY)), End);
    TakeLast("key", key, Caps1("id", id));
    TakeLit("!", last, key, Caps1("id", id), "", full);
    TakePart("id", "!", id, Cat(Lit("!"), last), "!" + key, map[], "", full);
    TakeLit("/#!", Cat(Group("id", Run(NotIn("!"))), Cat(Lit("!"), last)), id + ("!" + key), map[], "", full);
  }

  lemma NodeMatches(mark: string, file: Part, id: Part, key: Part)
    ensures First(NodeBody(mark), mark + (file + ("!" + (id + ("!" + key)))), map[], "", Caps1("file", file)["folder" := id]["key" := key])
  {
    var one := Caps1("file", file);
    var two := one["folder" := id];
    var full := two["key" := key];
    var last := Cat(Group("key", Run(ANY)), End);
    TakeLast("key", key, two);
    TakeLit("!", last, key, two, "", full);
    var folder := Cat(Group("folder", Run(NotIn("!"))), Cat(Lit("!"), last));
    TakePart("folder", "!", id, Cat(Lit("!"), last), "!" + key, one, "", full);
    TakeLit("!", folder, id + ("!" + key), one, "", full);
    TakePart("file", "!", file, Cat(Lit("!"), folder), "!" + (id + ("!" + key)), map[], "", full);
    TakeLit(mark, Cat(Group("file", Run(NotIn("!"))), Cat(Lit("!"), folder)), file + ("!" + (id + ("!" + key))), map[], "", full);
  }

  /** The part of a legacy folder pattern after the id and the optional subfolder. */
  function LegacyTail(): Re {
    Cat(Lit("!"), Cat(Group("key", Run(NotIn("!"))), Cat(Opt(Cat(Lit("!"), Group("trailer", Run(ANY)))), End)))
  }

  function Handle(trailer: Option<string>): string { if trailer.Some? then "!" + trailer.value else "" }

  function WithTrailer(caps: map<string, string>, trailer: Option<string>): map<string, string> {
    if trailer.Some? then caps["trailer" := trailer.value] else caps
  }

  lemma LegacyTailMatches(key: Part, trailer: Option<Part>, caps: map<string, string>)
    ensures First(LegacyTail(), "!" + (key + Handle(trailer)), caps, "", WithTrailer(caps["key" := key], trailer))
  {
    var keyed := caps["key" := key];
    var full := WithTrailer(keyed, trailer);
    var part := Group("trailer", Run(ANY));
    if trailer.Some? {
      CleanRun(trailer.value, ANY);
      FirstCapture("trailer", ANY, trailer.value, "", keyed);
      assert trailer.value + "" == trailer.value;
      TakeLit("!", part, trailer.value, keyed, "", full);
      TakeOpt(Cat(Lit("!"), part), End, Handle(trailer), keyed, "", full, "", full);
    } else {
      SkipOpt("!", part, End, "", keyed, "", keyed);
    }
    TakePart("key", "!", key, Cat(Opt(Cat(Lit("!"), part)), End), Handle(trailer), caps, "", full);
    TakeLit("!", Cat(Group("key", Run(NotIn("!"))), Cat(Opt(Cat(Lit("!"), part)), End)), key + Handle(trailer), caps, "", full);
  }

  function Subfolder(sub: Option<string>): string { if sub.Some? then "@" + sub.value else "" }

  function WithSub(caps: map<string, string>, sub: Option<string>): map<string, string> {
    if sub.Some? then caps["sub" := sub.value] else caps
  }

  lemma LegacyFolderMatches(id: Part, sub: Option<Part>, key: Part, trailer: Option<Part>)
    ensures First(LegacyFolderBody(), "/#F!" + (id + (Subfolder(sub) + ("!" + (key + Handle(trailer))))), map[], "",
                  WithTrailer(WithSub(Caps1("id", id), sub)["key" := key], trailer))
  {
    var one := Caps1("id", id);
    var full := WithTrailer(WithSub(one, sub)["key" := key], trailer);
    var tail := "!" + (key + Handle(trailer));
    var part := Group("sub", Run(NotIn("!")));
    LegacyTailMatches(key, trailer, WithSub(one, sub));
    if sub.Some? {
      TakeCapture("sub", "!", sub.value, tail, one);
      TakeLit("@", part, sub.value + tail, one, tail, WithSub(one, sub));
      Regroup("@", sub.value, tail);
      TakeOpt(Cat(Lit("@"), part), LegacyTail(), Subfolder(sub) + tail, one, tail, WithSub(one, sub), "", full);
    } else {
      assert Subfolder(sub) + tail == tail;
      NotOpening("@", tail, 0);
      SkipOpt("@", part, LegacyTail(), tail, one, "", full);
    }
    var s := Subfolder(sub) + tail;
    TakePart("id", "!@", id, Cat(Opt(Cat(Lit("@"), part)), LegacyTail()), s, map[], "", full);
    TakeLit("/#F!", Cat(Group("id", Run(NotIn("!@"))), Cat(Opt(Cat(Lit("@"), part)), LegacyTail())), id + s, map[], "", full);
  }

  // ---- A whole link

  /** No stripping character is in the base64 alphabet or is a slash. */
  ghost predicate Sensible(lib: Library) { !lib.isSpace('/') && forall c :: Base64Url(c) ==> !lib.isSpace(c) }

  lemma FirstMatch(w: Site, re: Re, rest: string, caps: map<string, string>)
    requires First(re, rest, map[], "", caps)
    ensures Match(Cat(SITE, re), SiteText(w) + rest) == Some(caps)
  {
    BehindSite(w, re, rest);
  }

  /** None of the patterns for protected or foreign links match a link that starts like the ones here. */
  lemma NoForeignMatch(lib: Library, w: Site, rest: string)
    requires !("/#P!" <= rest)
    ensures Recognize(lib, SiteText(w) + rest) == RecognizeModern(SiteText(w) + rest)
  {
    var url := SiteText(w) + rest;
    assert url[0] == 'h';
    WrongOpening(w, "/#P!", Cat(Group("blob", Run(ANY)), End), rest);
    NotCaseless(lib, url);
    NotOpening("mc://", url, 0);
    CatFails(Lit("mc://"), Cat(Group("server", Run(NotIn("/"))), Cat(Lit("/"), Cat(Group("token", Run(ANY)), End))), url, map[]);
  }

  lemma NotCaseless(lib: Library, url: string)
    requires url != "" && url[0] == 'h'
    ensures Match(EncContainer(lib), url) == None && Match(ElcContainer(lib), url) == None
  {
    var no: map<string, string> := map[];
    assert Fails(Caseless('m'), url, no);
    CatFails(Caseless('m'), CaselessWord("ega"), url, no);
    assert "mega"[1..] == "ega";
    assert Fails(CaselessWord("mega"), url, no);
    assert Fails(EncContainer(lib), url, no);
    assert Fails(ElcContainer(lib), url, no);
  }

  /** A modern file link parses to what its captures say. */
  lemma FileBodyParses(lib: Library, w: Site, rest: string, caps: map<string, string>)
    requires First(FileBody(), "/file/" + rest, map[], "", caps)
    ensures Recognize(lib, SiteText(w) + ("/file/" + rest)) == Ok(Link(File, Text(caps, "id"), Cap(caps, "key"), Cap(caps, "sub")))
  {
    var body := "/file/" + rest;
    NotOpening("/#P!", body, 1);
    NoForeignMatch(lib, w, body);
    NotOpening("/folder/", body, 2);
    WrongOpening(w, "/folder/", Cat(Group("id", Run(NotIn("#?/"))), Cat(Opt(Cat(Lit("#"), Group("key", Run(NotIn("!?/"))))),
      Cat(Opt(TrailerPart()), End))), body);
    FirstMatch(w, FileBody(), body, caps);
  }

  lemma ModernFileParses(lib: Library, w: Site, id: Part, key: Option<Part>)
    ensures Recognize(lib, SiteText(w) + Body(ModernFile(id, key))) == Ok(Link(File, id, key, None))
  {
    ModernFileMatches(id, key);
    FileBodyParses(lib, w, id + (Fragment(key) + ""), WithKey(Caps1("id", id), key));
  }

  lemma FilePartParses(lib: Library, w: Site, id: Part, key: Part, part: Part)
    ensures Recognize(lib, SiteText(w) + Body(ModernFilePart(id, key, part))) == Ok(Link(File, id, Some(key), Some(part)))
  {
    FilePartMatches(id, key, part);
    FileBodyParses(lib, w, id + (Fragment(Some(key)) + ("!" + part)), WithKey(Caps1("id", id), Some(key))["sub" := part]);
  }

  /** A modern folder link parses to what its captures say. */
  lemma ModernFolderParses(lib: Library, w: Site, rest: string, caps: map<string, string>)
    requires First(FolderBody(), "/folder/" + rest, map[], "", caps)
    ensures Recognize(lib, SiteText(w) + ("/folder/" + rest)) == Ok(Links.ModernFolder(caps))
  {
    var body := "/folder/" + rest;
    NotOpening("/#P!", body, 1);
    NoForeignMatch(lib, w, body);
    FirstMatch(w, FolderBody(), body, caps);
  }

  lemma NotModern(w: Site, rest: string)
    requires "/#" <= rest
    ensures RecognizeModern(SiteText(w) + rest) == RecognizeLegacy(SiteText(w) + rest)
  {
    NotOpening("/folder/", rest, 1);
    NotOpening("/file/", rest, 1);
    WrongOpening(w, "/folder/", Cat(Group("id", Run(NotIn("#?/"))), Cat(Opt(Cat(Lit("#"), Group("key", Run(NotIn("!?/"))))),
      Cat(Opt(TrailerPart()), End))), rest);
    WrongOpening(w, "/file/", Cat(Group("id", Run(NotIn("#?/"))), Cat(Opt(Cat(Lit("#"), Group("key", Run(NotIn("!?/"))))),
      Cat(Opt(Cat(Lit("!"), Group("sub", Run(ANY)))), End))), rest);
  }

  function AfterMark(): Re {
    Cat(Group("file", Run(NotIn("!"))), Cat(Lit("!"), Cat(Group("folder", Run(NotIn("!"))), Cat(Lit("!"), Cat(Group("key", Run(ANY)), End)))))
  }

  lemma NodeParses(lib: Library, w: Site, sp: Spelling)
    requires sp.Compact? || sp.Node?
    ensures Recognize(lib, SiteText(w) + Body(sp)) == Ok(Meaning(sp))
  {
    NotOpening("/#P!", Body(sp), 2);
    NoForeignMatch(lib, w, Body(sp));
    NotModern(w, Body(sp));
    match sp
    case Compact(file, id, key) =>
      NodeMatches("/#F*", file, id, key);
      FirstMatch(w, NodeBody("/#F*"), Body(sp), Caps1("file", file)["folder" := id]["key" := key]);
    case Node(file, id, key) =>
      NotOpening("/#F*", Body(sp), 2);
      WrongOpening(w, "/#F*", AfterMark(), Body(sp));
      NodeMatches("/#N!", file, id, key);
      FirstMatch(w, NodeBody("/#N!"), Body(sp), Caps1("file", file)["folder" := id]["key" := key]);
  }

  /** No pattern tried before the legacy folder pattern matches its links. */
  lemma OnlyLegacyFolder(lib: Library, w: Site, body: string)
    requires "/#F!" <= body
    ensures Recognize(lib, SiteText(w) + body) == RecognizeLegacy(SiteText(w) + body)
    ensures Match(Cat(SITE, NodeBody("/#F*")), SiteText(w) + body) == None && Match(Cat(SITE, NodeBody("/#N!")), SiteText(w) + body) == None
  {
    NotOpening("/#P!", body, 2);
    NoForeignMatch(lib, w, body);
    NotModern(w, body);
    NotOpening("/#F*", body, 3);
    WrongOpening(w, "/#F*", AfterMark(), body);
    NotOpening("/#N!", body, 2);
    WrongOpening(w, "/#N!", AfterMark(), body);
  }

  lemma LegacyFolderParses(lib: Library, w: Site, id: Part, sub: Option<Part>, key: Part, trailer: Option<Part>)
    ensures Recognize(lib, SiteText(w) + ("/#F!" + (id + (Subfolder(sub) + ("!" + (key + Handle(trailer)))))))
         == Ok(if trailer.Some? then Link(FileInFolder, id, Some(key), trailer)
               else if sub.Some? then Link(FolderInFolder, id, Some(key), sub) else Link(Folder, id, Some(key), None))
  {
    var body := "/#F!" + (id + (Subfolder(sub) + ("!" + (key + Handle(trailer)))));
    OnlyLegacyFolder(lib, w, body);
    LegacyFolderMatches(id, sub, key, trailer);
    FirstMatch(w, LegacyFolderBody(), body, WithTrailer(WithSub(Caps1("id", id), sub)["key" := key], trailer));
  }

  lemma LegacyFileParses(lib: Library, w: Site, id: Part, key: Part)
    ensures Recognize(lib, SiteText(w) + Body(LegacyFile(id, key))) == Ok(Link(File, id, Some(key), None))
  {
    var body := Body(LegacyFile(id, key));
    NotOpening("/#P!", body, 2);
    NoForeignMatch(lib, w, body);
    NotModern(w, body);
    NotOpening("/#F*", body, 2);
    WrongOpening(w, "/#F*", AfterMark(), body);
    NotOpening("/#N!", body, 2);
    WrongOpening(w, "/#N!", AfterMark(), body);
    NotOpening("/#F!", body, 2);
    WrongOpening(w, "/#F!", Cat(Group("id", Run(NotIn("!@"))), Cat(Opt(Cat(Lit("@"), Group("sub", Run(NotIn("!"))))), LegacyTail())), body);
    LegacyFileMatches(id, key);
    FirstMatch(w, LegacyFileBody(), body, Caps1("id", id)["key" := key]);
  }

  lemma PlainLegacyParses(lib: Library, w: Site, id: Part, key: Part)
    ensures Recognize(lib, SiteText(w) + Body(LegacyFolder(id, key))) == Ok(Link(Folder, id, Some(key), None))
  {
    assert key + Handle(None) == key && Subfolder(None) + ("!" + key) == "!" + key;
    LegacyFolderParses(lib, w, id, None, key, None);
  }

  lemma LegacySubParses(lib: Library, w: Site, id: Part, sub: Part, key: Part)
    ensures Recognize(lib, SiteText(w) + Body(LegacySub(id, sub, key))) == Ok(Link(FolderInFolder, id, Some(key), Some(sub)))
  {
    assert key + Handle(None) == key;
    Regroup("@", sub, "!" + key);
    LegacyFolderParses(lib, w, id, Some(sub), key, None);
  }

  lemma LegacyTrailerParses(lib: Library, w: Site, id: Part, key: Part, handle: Part)
    ensures Recognize(lib, SiteText(w) + Body(LegacyTrailer(id, key, handle))) == Ok(Link(FileInFolder, id, Some(key), Some(handle)))
  {
    assert Subfolder(None) + ("!" + (key + ("!" + handle))) == "!" + (key + ("!" + handle));
    LegacyFolderParses(lib, w, id, None, key, Some(handle));
  }

  lemma PlainMeaning(id: string, key: Option<string>)
    ensures Links.ModernFolder(WithKey(Caps1("id", id), key)) == Link(Folder, id, key, None)
  {
  }

  lemma InnerMeaning(id: string, key: Option<string>, kind: NestedKind, inner: Part)
    ensures Links.ModernFolder(WithKey(Caps1("id", id), key)["kind" := KindWord(kind)]["inner" := inner]) == Link(kind, id, key, Some(inner))
  {
  }

  lemma ModernPlainParses(lib: Library, w: Site, id: Part, key: Option<Part>)
    ensures Recognize(lib, SiteText(w) + Body(ModernFolder(id, key))) == Ok(Link(Folder, id, key, None))
  {
    ModernFolderMatches(id, key);
    ModernFolderParses(lib, w, id + (Fragment(key) + ""), WithKey(Caps1("id", id), key));
    PlainMeaning(id, key);
  }

  lemma ModernInnerParses(lib: Library, w: Site, id: Part, key: Option<Part>, kind: NestedKind, inner: Part)
    ensures Recognize(lib, SiteText(w) + Body(ModernInner(id, key, kind, inner))) == Ok(Link(kind, id, key, Some(inner)))
  {
    ModernInnerMatches(id, key, kind, inner);
    ModernFolderParses(lib, w, id + (Fragment(key) + Trailer(kind, inner)), WithKey(Caps1("id", id), key)["kind" := KindWord(kind)]["inner" := inner]);
    InnerMeaning(id, key, kind, inner);
  }

  lemma SpellingIsRecognized(lib: Library, w: Site, sp: Spelling)
    ensures Recognize(lib, SiteText(w) + Body(sp)) == Ok(Meaning(sp))
  {
    match sp
    case ModernFile(id, key) => ModernFileParses(lib, w, id, key);
    case ModernFilePart(id, key, part) => FilePartParses(lib, w, id, key, part);
    case LegacyFile(id, key) => LegacyFileParses(lib, w, id, key);
    case Compact(_, _, _) => NodeParses(lib, w, sp);
    case Node(_, _, _) => NodeParses(lib, w, sp);
    case ModernFolder(id, key) => ModernPlainParses(lib, w, id, key);
    case ModernInner(id, key, kind, inner) => ModernInnerParses(lib, w, id, key, kind, inner);
    case LegacyFolder(id, key) => PlainLegacyParses(lib, w, id, key);
    case LegacySub(id, sub, key) => LegacySubParses(lib, w, id, sub, key);
    case LegacyTrailer(id, key, handle) => LegacyTrailerParses(lib, w, id, key, handle);
  }

  // ---- Stripping leaves a link alone

  ghost predicate Ends(s: string) { s != "" && Base64Url(s[|s| - 1]) }

  lemma EndsAfter(a: string, b: string)
    requires Ends(b)
    ensures Ends(a + b)
  {
    assert (a + b)[|a + b| - 1] == b[|b| - 1];
  }

  lemma FragmentEnds(open: string, id: Part, key: Option<Part>)
    ensures Ends(open + (id + Fragment(key)))
  {
    match key
    case Some(k) =>
      EndsAfter("#", k);
      EndsAfter(id, "#" + k);
      EndsAfter(open, id + ("#" + k));
    case None =>
      assert id + "" == id;
      EndsAfter(open, id);
  }

  lemma MarkEnds(open: string, a: string, mark: string, b: string)
    requires Ends(b)
    ensures Ends(open + (a + (mark + b)))
  {
    EndsAfter(mark, b);
    EndsAfter(a, mark + b);
    EndsAfter(open, a + (mark + b));
  }

  /** Every spelling ends in a base64 character. */
  lemma BodyEnds(sp: Spelling)
    ensures Ends(Body(sp))
  {
    match sp
    case ModernFile(id, key) =>
      assert Fragment(key) + "" == Fragment(key);
      FragmentEnds("/file/", id, key);
    case ModernFilePart(id, key, part) => MarkEnds("/file/", id, Fragment(Some(key)), "!" + part);
    case ModernFolder(id, key) =>
      assert Fragment(key) + "" == Fragment(key);
      FragmentEnds("/folder/", id, key);
    case ModernInner(id, key, kind, inner) =>
      MarkEnds("/", KindWord(kind), "/", inner);
      MarkEnds("/folder/", id, Fragment(key), Trailer(kind, inner));
    case LegacyFile(id, key) => MarkEnds("/#!", id, "!", key);
    case LegacyFolder(id, key) => MarkEnds("/#F!", id, "!", key);
    case LegacySub(id, sub, key) =>
      MarkEnds("@", sub, "!", key);
      MarkEnds("/#F!", id, "", "@" + (sub + ("!" + key)));
      assert "" + ("@" + (sub + ("!" + key))) == "@" + (sub + ("!" + key));
    case LegacyTrailer(id, key, handle) =>
      MarkEnds("!", key, "!", handle);
      MarkEnds("/#F!", id, "", "!" + (key + ("!" + handle)));
      assert "" + ("!" + (key + ("!" + handle))) == "!" + (key + ("!" + handle));
    case Compact(file, id, key) => NodeEnds("/#F*", file, id, key);
    case Node(file, id, key) => NodeEnds("/#N!", file, id, key);
  }

  lemma NodeEnds(open: string, file: string, id: string, key: Part)
    ensures Ends(open + (file + ("!" + (id + ("!" + key)))))
  {
    MarkEnds("!", id, "!", key);
    EndsAfter(file, "!" + (id + ("!" + key)));
    EndsAfter(open, file + ("!" + (id + ("!" + key))));
  }

  lemma NothingToStrip(lib: Library, url: string)
    requires Sensible(lib) && Ends(url) && url[0] == 'h'
    ensures Parse(lib, url) == Recognize(lib, url)
  {
    assert Base64Url('h');
    assert Strip(url, lib.isSpace) == url && StripSlashes(url) == url;
  }

  /** Every spelling parses to its meaning. */
  lemma ParseSpelling(lib: Library, w: Site, sp: Spelling)
    requires Sensible(lib)
    ensures Parse(lib, SiteText(w) + Body(sp)) == Ok(Meaning(sp))
  {
    BodyEnds(sp);
    EndsAfter(SiteText(w), Body(sp));
    assert (SiteText(w) + Body(sp))[0] == 'h';
    NothingToStrip(lib, SiteText(w) + Body(sp));
    SpellingIsRecognized(lib, w, sp);
  }

  /** All spellings of the same components, on either host and scheme, parse to the same link. */
  lemma SpellingsAgree(lib: Library, w: Site, sp: Spelling, w': Site, sp': Spelling)
    requires Sensible(lib)
    ensures Parse(lib, SiteText(w) + Body(sp)) == Parse(lib, SiteText(w') + Body(sp')) <==> Meaning(sp) == Meaning(sp')
  {
    ParseSpelling(lib, w, sp);
    ParseSpelling(lib, w', sp');
  }

  // ---- The printer

  ghost predicate CleanLink(p: ParsedLink) {
    p.Link? && Clean(p.publicId) && (p.key.Some? ==> Clean(p.key.value)) && (p.subpath.Some? ==> Clean(p.subpath.value))
  }

  /** The modern spelling of a link; a nested link shows its key and subpath as the printer does. */
  ghost function ModernSpelling(p: ParsedLink): Spelling
    requires CleanLink(p)
  {
    assert Clean("None");
    var key: Option<Part> := match p.key case Some(k) => Some(k) case None => None;
    match p
    case Link(File, id, _, _) => ModernFile(id, key)
    case Link(Folder, id, _, _) => Spelling.ModernFolder(id, key)
    case Link(kind, id, _, _) => ModernInner(id, Some(Shown(p.key)), kind, Shown(p.subpath))
  }

  lemma ModernPrints(p: ParsedLink, url: string)
    requires CleanLink(p)
    ensures Modern(p, url) == SiteText(Site(true, false)) + Body(ModernSpelling(p))
  {
    assert SiteText(Site(true, false)) == MODERN;
    match p
    case Link(File, id, key, _) => assert Fragment(key) + "" == Fragment(key);
    case Link(Folder, id, key, _) => assert Fragment(key) + "" == Fragment(key);
    case Link(kind, id, key, sub) => InnerPrints(kind, Shown(key), Shown(sub));
  }

  lemma InnerPrints(kind: LinkKind, key: string, sub: string)
    ensures Fragment(Some(key)) + Trailer(kind, sub) == "#" + (key + (("/" + (KindWord(kind) + "/")) + sub))
    ensures "/" + (KindWord(kind) + "/") == if kind.FileInFolder? then "/file/" else "/folder/"
  {
    Regroup("#", key, Trailer(kind, sub));
    Regroup(KindWord(kind), "/", sub);
    Regroup("/", KindWord(kind) + "/", sub);
  }

  predicate Nested(p: ParsedLink) { p.Link? && (p.kind.FileInFolder? || p.kind.FolderInFolder?) }

  /** What parsing can put in a link: a subpath always in the nested kinds, never in a folder link. */
  lemma ParsedShape(lib: Library, url: string)
    ensures Parse(lib, url).Ok? ==> Shaped(Parse(lib, url).value)
  {
    var bare := Strip(url, lib.isSpace);
    RecognizedShape(lib, if lib.megaHost(bare) then StripSlashes(bare) else bare);
  }

  predicate Shaped(p: ParsedLink) { p.Link? ==> (Nested(p) ==> p.subpath.Some?) && (p.kind.Folder? ==> p.subpath.None?) }

  lemma RecognizedShape(lib: Library, url: string)
    ensures Recognize(lib, url).Ok? ==> Shaped(Recognize(lib, url).value)
  {
    ModernShape(url);
  }

  lemma ModernShape(url: string)
    ensures RecognizeModern(url).Ok? ==> Shaped(RecognizeModern(url).value)
  {
    LegacyShape(url);
  }

  lemma LegacyShape(url: string)
    ensures RecognizeLegacy(url).Ok? ==> Shaped(RecognizeLegacy(url).value)
  {
  }

  lemma PrintThenParse(lib: Library, p: ParsedLink, url: string)
    requires Sensible(lib) && CleanLink(p) && (Nested(p) ==> p.subpath.Some?) && (p.kind.Folder? ==> p.subpath.None?)
    ensures Parse(lib, Modern(p, url)) == Ok(p) <==> (Nested(p) ==> p.key.Some?) && (p.kind.File? ==> p.subpath.None?)
  {
    ModernPrints(p, url);
    assert Clean("None");
    ParseSpelling(lib, Site(true, false), ModernSpelling(p));
  }

  /**
   * For every input that parses to a link over the base64 alphabet, in whatever spelling: printing it and
   * parsing again gives the same link exactly when a nested link has its key, and a file link nothing
   * after its key. A nested link without a key is printed with the word "None" in its place.
   */
  lemma NormalizeKeepsMeaning(lib: Library, url: string)
    requires Sensible(lib) && Parse(lib, url).Ok? && CleanLink(Parse(lib, url).value)
    ensures var p := Parse(lib, url).value;
      Normalize(lib, url).Ok? && (Parse(lib, Normalize(lib, url).value) == Ok(p)
        <==> (Nested(p) ==> p.key.Some?) && (p.kind.File? ==> p.subpath.None?))
  {
    ParsedShape(lib, url);
    PrintThenParse(lib, Parse(lib, url).value, url);
  }

  /** A nested link written without the folder's key, as https://mega.nz/folder/a/file/b, comes back from the printer with the key "None". */
  lemma KeylessNestedChanges(lib: Library, w: Site, id: Part, kind: NestedKind, inner: Part)
    requires Sensible(lib)
    ensures var url := SiteText(w) + Body(ModernInner(id, None, kind, inner));
      && Parse(lib, url) == Ok(Link(kind, id, None, Some(inner)))
      && Normalize(lib, url).Ok? && Parse(lib, Normalize(lib, url).value) == Ok(Link(kind, id, Some("None"), Some(inner)))
  {
    var sp := ModernInner(id, None, kind, inner);
    ParseSpelling(lib, w, sp);
    ModernPrints(Meaning(sp), SiteText(w) + Body(sp));
    assert Clean("None");
    ParseSpelling(lib, Site(true, false), ModernSpelling(Meaning(sp)));
  }

  /** What follows the "!" of a modern file link, as in https://mega.nz/file/a#b!c, is parsed, and not printed. */
  lemma FilePartIsDropped(lib: Library, w: Site, id: Part, key: Part, part: Part)
    requires Sensible(lib)
    ensures var url := SiteText(w) + Body(ModernFilePart(id, key, part));
      && Parse(lib, url) == Ok(Link(File, id, Some(key), Some(part)))
      && Normalize(lib, url).Ok? && Parse(lib, Normalize(lib, url).value) == Ok(Link(File, id, Some(key), None))
  {
    var sp := ModernFilePart(id, key, part);
    ParseSpelling(lib, w, sp);
    ModernPrints(Meaning(sp), SiteText(w) + Body(sp));
    ParseSpelling(lib, Site(true, false), ModernSpelling(Meaning(sp)));
  }

  // ---- What is ignored around a link

  ghost predicate AllSpace(s: string, isSpace: char -> bool) { forall i :: 0 <= i < |s| ==> isSpace(s[i]) }

  lemma {:induction false} StripBlank(s: string, isSpace: char -> bool)
    requires AllSpace(s, isSpace)
    ensures Strip(s, isSpace) == ""
  {
    if s != "" { StripBlank(s[1..], isSpace); }
  }

  lemma {:induction false} StripBefore(pad: string, s: string, isSpace: char -> bool)
    requires AllSpace(pad, isSpace)
    ensures Strip(pad + s, isSpace) == Strip(s, isSpace)
  {
    if pad == "" {
      assert pad + s == s;
    } else {
      assert (pad + s)[1..] == pad[1..] + s;
      StripBefore(pad[1..], s, isSpace);
    }
  }

  lemma {:induction false} StripAfter(s: string, pad: string, isSpace: char -> bool)
    requires AllSpace(pad, isSpace)
    ensures Strip(s + pad, isSpace) == Strip(s, isSpace)
    decreases |s| + |pad|
  {
    if s == "" {
      assert s + pad == pad;
      StripBlank(pad, isSpace);
    } else if pad == "" {
      assert s + pad == s;
    } else if isSpace(s[0]) {
      assert (s + pad)[1..] == s[1..] + pad;
      StripAfter(s[1..], pad, isSpace);
    } else {
      assert (s + pad)[..|s + pad| - 1] == s + pad[..|pad| - 1];
      StripAfter(s, pad[..|pad| - 1], isSpace);
    }
  }

  /** Whitespace around any input changes nothing. */
  lemma PaddingIsIgnored(lib: Library, before: string, url: string, after: string)
    requires AllSpace(before, lib.isSpace) && AllSpace(after, lib.isSpace)
    ensures Parse(lib, before + (url + after)) == Parse(lib, url)
  {
    StripBefore(before, url + after, lib.isSpace);
    StripAfter(url, after, lib.isSpace);
  }

  lemma {:induction false} SlashesGo(url: string, slashes: string)
    requires forall i :: 0 <= i < |slashes| ==> slashes[i] == '/'
    ensures StripSlashes(url + slashes) == StripSlashes(url)
  {
    if slashes == "" {
      assert url + slashes == url;
    } else {
      assert (url + slashes)[..|url + slashes| - 1] == url + slashes[..|slashes| - 1];
      SlashesGo(url, slashes[..|slashes| - 1]);
    }
  }

  lemma SlashedLink(lib: Library, url: string, slashes: string)
    requires Sensible(lib) && Ends(url) && url[0] == 'h' && lib.megaHost(url + slashes)
    requires forall i :: 0 <= i < |slashes| ==> slashes[i] == '/'
    ensures Parse(lib, url + slashes) == Recognize(lib, url)
  {
    assert Base64Url('h');
    assert Strip(url + slashes, lib.isSpace) == url + slashes;
    SlashesGo(url, slashes);
    assert StripSlashes(url) == url;
  }

  /** Any number of slashes after a spelling on MEGA's host changes nothing. */
  lemma TrailingSlashesAreIgnored(lib: Library, w: Site, sp: Spelling, slashes: string)
    requires Sensible(lib) && forall i :: 0 <= i < |slashes| ==> slashes[i] == '/'
    requires lib.megaHost(SiteText(w) + Body(sp) + slashes)
    ensures Parse(lib, SiteText(w) + Body(sp) + slashes) == Ok(Meaning(sp))
  {
    var url := SiteText(w) + Body(sp);
    BodyEnds(sp);
    EndsAfter(SiteText(w), Body(sp));
    assert url[0] == 'h';
    SlashedLink(lib, url, slashes);
    SpellingIsRecognized(lib, w, sp);
  }

  // ---- Links of other kinds

  /** A password-protected link keeps its blob. */
  lemma ProtectedParses(lib: Library, w: Site, blob: Part)
    requires Sensible(lib)
    ensures Parse(lib, SiteText(w) + ("/#P!" + blob)) == Ok(PasswordProtected(blob))
  {
    TakeLast("blob", blob, map[]);
    TakeLit("/#P!", Cat(Group("blob", Run(ANY)), End), blob, map[], "", Caps1("blob", blob));
    FirstMatch(w, PasswordBody(), "/#P!" + blob, Caps1("blob", blob));
    EndsAfter("/#P!", blob);
    EndsAfter(SiteText(w), "/#P!" + blob);
    assert (SiteText(w) + ("/#P!" + blob))[0] == 'h';
    NothingToStrip(lib, SiteText(w) + ("/#P!" + blob));
  }
}
