/** Parsing and printing MEGA share links (core/links.py). */
module Links {
  import opened Basics
  import opened Regex

  datatype LinkKind = File | Folder | FileInFolder | FolderInFolder

  datatype ParsedLink =
    | Link(kind: LinkKind, publicId: string, key: Option<string>, subpath: Option<string>)
    | PasswordProtected(blob: string)
    | Container(variant: string, blob: string)
    | Elc(blob: string)
    | MegaCrypter(server: string, token: string)

  datatype LinkError = NotALink

  /** Library functions the parser relies on: which characters `strip` drops, and whether the URL's host is MEGA's. */
  datatype Library = Library(isSpace: char -> bool, megaHost: string -> bool)

  // ---- The patterns

  /** Either scheme, either host: mega.nz or mega.co.nz. */
  const SITE: Re := Cat(Lit("http"), Cat(Opt(Lit("s")), Cat(Lit("://mega"), Cat(Opt(Lit(".co")), Lit(".nz")))))

  function NotIn(chars: string): char -> bool { c => c !in chars }

  const ANY: char -> bool := c => c != '\n'

  predicate WordChar(c: char) { 'A' <= c <= 'Z' || 'a' <= c <= 'z' || '0' <= c <= '9' }

  /** The URL-safe base64 alphabet (section 5 of RFC 4648), without padding. */
  predicate Base64Url(c: char) { WordChar(c) || c == '-' || c == '_' }

  function Caseless(c: char): Re { One(x => x == c || (x as int == c as int - 32)) }

  function CaselessWord(text: string): Re
    requires text != ""
  {
    if |text| == 1 then Caseless(text[0]) else Cat(Caseless(text[0]), CaselessWord(text[1..]))
  }

  function FileBody(): Re {
    Cat(Lit("/file/"), Cat(Group("id", Run(NotIn("#?/"))), Cat(Opt(Cat(Lit("#"), Group("key", Run(NotIn("!?/"))))),
        Cat(Opt(Cat(Lit("!"), Group("sub", Run(ANY)))), End))))
  }

  function TrailerPart(): Re {
    Cat(Lit("/"), Cat(Group("kind", Alt(Lit("file"), Lit("folder"))), Cat(Lit("/"), Group("inner", Run(NotIn("#?/"))))))
  }

  function FolderBody(): Re {
    Cat(Lit("/folder/"), Cat(Group("id", Run(NotIn("#?/"))), Cat(Opt(Cat(Lit("#"), Group("key", Run(NotIn("!?/"))))),
        Cat(Opt(TrailerPart()), End))))
  }

  function PasswordBody(): Re { Cat(Lit("/#P!"), Cat(Group("blob", Run(ANY)), End)) }

  function LegacyFileBody(): Re { Cat(Lit("/#!"), Cat(Group("id", Run(NotIn("!"))), Cat(Lit("!"), Cat(Group("key", Run(ANY)), End)))) }

  function LegacyFolderBody(): Re {
    Cat(Lit("/#F!"), Cat(Group("id", Run(NotIn("!@"))), Cat(Opt(Cat(Lit("@"), Group("sub", Run(NotIn("!"))))),
        Cat(Lit("!"), Cat(Group("key", Run(NotIn("!"))), Cat(Opt(Cat(Lit("!"), Group("trailer", Run(ANY)))), End))))))
  }

  /** `#F*` and `#N!` links: file, folder, key. */
  function NodeBody(mark: string): Re {
    Cat(Lit(mark), Cat(Group("file", Run(NotIn("!"))), Cat(Lit("!"), Cat(Group("folder", Run(NotIn("!"))), Cat(Lit("!"),
        Cat(Group("key", Run(ANY)), End))))))
  }

  function McScheme(): Re { Cat(Lit("mc://"), Cat(Group("server", Run(NotIn("/"))), Cat(Lit("/"), Cat(Group("token", Run(ANY)), End)))) }

  function McHttp(): Re {
    Cat(Lit("http"), Cat(Opt(Lit("s")), Cat(Lit("://"), Cat(Group("server", Run(NotIn("/"))), Cat(Lit("/!"),
        Cat(Group("token", Run(c => Base64Url(c))), End))))))
  }

  function EncContainer(lib: Library): Re {
    Cat(CaselessWord("mega"), Cat(Lit("://"), Cat(Group("variant", Cat(Opt(Caseless('f')), Cat(CaselessWord("enc"), Opt(One(c => '0' <= c <= '9'))))),
        Cat(Lit("?"), Cat(Group("blob", Run(c => Base64Url(c) || c in "+/=")), Cat(Opt(Run(lib.isSpace)), End))))))
  }

  function ElcContainer(lib: Library): Re {
    Cat(CaselessWord("mega"), Cat(Lit("://"), Cat(CaselessWord("elc"),
        Cat(Lit("?"), Cat(Group("blob", Run(c => Base64Url(c) || c in "+/=,")), Cat(Opt(Run(lib.isSpace)), End))))))
  }

  /** `pattern.match(url)`: the captures of the first way to match. */
  function Match(re: Re, url: string): Option<map<string, string>> {
    var hits := Runs(re, url, map[]);
    if hits == [] then None else Some(hits[0].caps)
  }

  function Cap(m: map<string, string>, name: string): Option<string> { if name in m then Some(m[name]) else None }

  function Text(m: map<string, string>, name: string): string { if name in m then m[name] else "" }

  // ---- `parse_link`

  function Strip(s: string, isSpace: char -> bool): string
    decreases |s|
  {
    if s == "" then s
    else if isSpace(s[0]) then Strip(s[1..], isSpace)
    else if isSpace(s[|s| - 1]) then Strip(s[..|s| - 1], isSpace)
    else s
  }

  function StripSlashes(s: string): string {
    if s != "" && s[|s| - 1] == '/' then StripSlashes(s[..|s| - 1]) else s
  }

  predicate Mentions(url: string, text: string)
    decreases |url|
  {
    text <= url || (url != "" && Mentions(url[1..], text))
  }

  function LowerAscii(s: string): string { seq(|s|, i requires 0 <= i < |s| => if 'A' <= s[i] <= 'Z' then s[i] + 32 as char else s[i]) }

  function Parse(lib: Library, url: string): Result<ParsedLink, LinkError> {
    var bare := Strip(url, lib.isSpace);
    Recognize(lib, if lib.megaHost(bare) then StripSlashes(bare) else bare)
  }

  /** The patterns in the order they are tried. */
  function Recognize(lib: Library, url: string): Result<ParsedLink, LinkError> {
    var password, enc, elc, mc := Match(Cat(SITE, PasswordBody()), url), Match(EncContainer(lib), url), Match(ElcContainer(lib), url), Match(McScheme(), url);
    if password.Some? then Ok(PasswordProtected(Text(password.value, "blob")))
    else if enc.Some? then Ok(Container(LowerAscii(Text(enc.value, "variant")), Text(enc.value, "blob")))
    else if elc.Some? then Ok(Elc(Text(elc.value, "blob")))
    else if mc.Some? then Ok(MegaCrypter(Text(mc.value, "server"), Text(mc.value, "token")))
    else RecognizeModern(url)
  }

  function RecognizeModern(url: string): Result<ParsedLink, LinkError> {
    var folder, file := Match(Cat(SITE, FolderBody()), url), Match(Cat(SITE, FileBody()), url);
    if folder.Some? then Ok(ModernFolder(folder.value))
    else if file.Some? then Ok(Link(File, Text(file.value, "id"), Cap(file.value, "key"), Cap(file.value, "sub")))
    else RecognizeLegacy(url)
  }

  function ModernFolder(m: map<string, string>): ParsedLink {
    var kind, inner := Text(m, "kind"), Text(m, "inner");
    if kind == "file" && inner != "" then Link(FileInFolder, Text(m, "id"), Cap(m, "key"), Some(inner))
    else if kind == "folder" && inner != "" then Link(FolderInFolder, Text(m, "id"), Cap(m, "key"), Some(inner))
    else Link(Folder, Text(m, "id"), Cap(m, "key"), None)
  }

  function RecognizeLegacy(url: string): Result<ParsedLink, LinkError> {
    var compact, node := Match(Cat(SITE, NodeBody("/#F*")), url), Match(Cat(SITE, NodeBody("/#N!")), url);
    var folder, file, mc := Match(Cat(SITE, LegacyFolderBody()), url), Match(Cat(SITE, LegacyFileBody()), url), Match(McHttp(), url);
    if compact.Some? then Ok(NodeLink(compact.value))
    else if node.Some? then Ok(NodeLink(node.value))
    else if folder.Some? then Ok(LegacyFolder(folder.value))
    else if file.Some? then Ok(Link(File, Text(file.value, "id"), Some(Text(file.value, "key")), None))
    else if mc.Some? && !Mentions(url, "mega.nz") && !Mentions(url, "mega.co.nz") then
      Ok(MegaCrypter(Text(mc.value, "server"), Text(mc.value, "token")))
    else Err(NotALink)
  }

  function NodeLink(m: map<string, string>): ParsedLink { Link(FileInFolder, Text(m, "folder"), Some(Text(m, "key")), Some(Text(m, "file"))) }

  function LegacyFolder(m: map<string, string>): ParsedLink {
    if Text(m, "trailer") != "" then Link(FileInFolder, Text(m, "id"), Some(Text(m, "key")), Some(Text(m, "trailer")))
    else if Text(m, "sub") != "" then Link(FolderInFolder, Text(m, "id"), Some(Text(m, "key")), Some(Text(m, "sub")))
    else Link(Folder, Text(m, "id"), Some(Text(m, "key")), None)
  }

  // ---- `normalize_link`

  const MODERN: string := "https://mega.nz"

  /** How an f-string prints an optional text. */
  function Shown(o: Option<string>): string {
    match o
    case Some(text) => text
    case None => "None"
  }

  function Hash(key: Option<string>): string { if key.Some? && key.value != "" then "#" + key.value else "" }

  function Modern(p: ParsedLink, url: string): string {
    match p
    case Link(File, id, key, _) => MODERN + ("/file/" + (id + Hash(key)))
    case Link(Folder, id, key, _) => MODERN + ("/folder/" + (id + Hash(key)))
    case Link(FileInFolder, id, key, sub) => MODERN + ("/folder/" + (id + ("#" + (Shown(key) + ("/file/" + Shown(sub))))))
    case Link(FolderInFolder, id, key, sub) => MODERN + ("/folder/" + (id + ("#" + (Shown(key) + ("/folder/" + Shown(sub))))))
    case _ => url
  }

  function Normalize(lib: Library, url: string): Result<string, LinkError> {
    match Parse(lib, url)
    case Err(error) => Err(error)
    case Ok(p) => Ok(Modern(p, url))
  }
}
