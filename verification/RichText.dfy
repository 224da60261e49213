/** Rich-text documents: the node type, its JSON decoding, and the validator of the CMS. */
module RichText {
  import opened GoStrings
  import opened Json

  datatype Kind =
    | Doc | Paragraph | Heading | BulletList | OrderedList | ListItem | Blockquote | HorizontalRule
    | HardBreak | CodeBlock | Image | Text
    | Unknown(name: string)

  datatype MarkKind =
    | Bold | Italic | Strike | Underline | Code | TextStyle | Link
    | UnknownMark(name: string)

  datatype Mark = Mark(kind: MarkKind, attrs: map<string, Json>)
  datatype Node = Node(kind: Kind, content: seq<Node>, text: string, attrs: map<string, Json>, marks: seq<Mark>)

  function KindOf(typ: string): Kind {
    if typ == "doc" then Doc
    else if typ == "paragraph" then Paragraph
    else if typ == "heading" then Heading
    else if typ == "bulletList" then BulletList
    else if typ == "orderedList" then OrderedList
    else if typ == "listItem" then ListItem
    else if typ == "blockquote" then Blockquote
    else if typ == "horizontalRule" then HorizontalRule
    else if typ == "hardBreak" then HardBreak
    else if typ == "codeBlock" then CodeBlock
    else if typ == "image" then Image
    else if typ == "text" then Text
    else Unknown(typ)
  }

  function MarkKindOf(typ: string): MarkKind {
    if typ == "bold" then Bold
    else if typ == "italic" then Italic
    else if typ == "strike" then Strike
    else if typ == "underline" then Underline
    else if typ == "code" then Code
    else if typ == "textStyle" then TextStyle
    else if typ == "link" then Link
    else UnknownMark(typ)
  }

  /** The types by name; every other name is unknown. */
  lemma KindNames(s: string)
    ensures (KindOf(s) == Doc <==> s == "doc") && (KindOf(s) == Paragraph <==> s == "paragraph")
    ensures (KindOf(s) == Heading <==> s == "heading") && (KindOf(s) == BulletList <==> s == "bulletList")
    ensures (KindOf(s) == OrderedList <==> s == "orderedList") && (KindOf(s) == ListItem <==> s == "listItem")
    ensures (KindOf(s) == Blockquote <==> s == "blockquote") && (KindOf(s) == CodeBlock <==> s == "codeBlock")
    ensures (KindOf(s) == HorizontalRule <==> s == "horizontalRule") && (KindOf(s) == HardBreak <==> s == "hardBreak")
    ensures (KindOf(s) == Image <==> s == "image") && (KindOf(s) == Text <==> s == "text")
  {
    assert "bulletList"[1] != "blockquote"[1];
    assert "paragraph"[0] != "hardBreak"[0] && "paragraph"[0] != "codeBlock"[0] && "hardBreak"[0] != "codeBlock"[0];
  }

  lemma MarkNames(s: string)
    ensures (MarkKindOf(s) == Bold <==> s == "bold") && (MarkKindOf(s) == Italic <==> s == "italic")
    ensures (MarkKindOf(s) == Strike <==> s == "strike") && (MarkKindOf(s) == Underline <==> s == "underline")
    ensures (MarkKindOf(s) == Code <==> s == "code") && (MarkKindOf(s) == TextStyle <==> s == "textStyle")
    ensures MarkKindOf(s) == Link <==> s == "link"
  {
    assert "bold"[0] != "code"[0] && "bold"[0] != "link"[0] && "code"[0] != "link"[0];
    assert "italic"[0] != "strike"[0] && "underline"[0] != "textStyle"[0];
  }

  /* ---------- finding a member ---------- */

  /** Simple case folding, as far as it reaches ASCII letters. */
  function FoldChar(c: char): char {
    if 'A' <= c <= 'Z' then (c as int + 32) as char
    else if c == '\U{017F}' then 's'
    else if c == '\U{212A}' then 'k'
    else c
  }

  predicate EqualFold(s: string, t: string) {
    |s| == |t| && forall i :: 0 <= i < |s| ==> FoldChar(s[i]) == FoldChar(t[i])
  }

  /** Up to case: each letter is the name's, its capital, or one of the two signs that fold to `s` and `k`. */
  lemma EqualFoldIff(s: string, name: string)
    requires IsLower(name)
    ensures EqualFold(s, name) <==>
      |s| == |name| && forall i :: 0 <= i < |name| ==>
        || s[i] == name[i] || s[i] as int + 32 == name[i] as int
        || (s[i] == '\U{017F}' && name[i] == 's') || (s[i] == '\U{212A}' && name[i] == 'k')
  {
    forall i | |s| == |name| && 0 <= i < |name| ensures FoldChar(name[i]) == name[i] {}
  }

  /** The member a struct field named `name` is decoded from: the one of that name, else one whose name differs
      in case only. */
  ghost function Find(fields: map<string, Json>, name: string): (j: Json)
    ensures name in fields ==> j == fields[name]
    ensures name !in fields ==>
      if exists k :: k in fields && EqualFold(k, name)
      then exists k :: k in fields && EqualFold(k, name) && j == fields[k] else j == JNull
  {
    if name in fields then fields[name]
    else if exists k :: k in fields && EqualFold(k, name) then
      var k :| k in fields && EqualFold(k, name);
      fields[k]
    else JNull
  }

  predicate IsLower(s: string) {
    forall i :: 0 <= i < |s| ==> 'a' <= s[i] <= 'z'
  }

  /** Where all names are lower case, only the exact one is found. */
  lemma FindAmongLower(fields: map<string, Json>, name: string)
    requires IsLower(name) && forall k :: k in fields ==> IsLower(k)
    ensures Find(fields, name) == Member(fields, name)
  {
    forall k | k in fields && EqualFold(k, name) ensures k == name {
      assert forall i :: 0 <= i < |k| ==> FoldChar(k[i]) == k[i] && FoldChar(name[i]) == name[i];
    }
  }

  /* ---------- decoding: absent and null members leave the zero value, other mismatches are errors ---------- */

  function DecodeString(j: Json): Option<string> {
    match j
    case JNull => Some("")
    case JString(s) => Some(s)
    case _ => None
  }

  function DecodeAttrs(j: Json): Option<map<string, Json>> {
    match j
    case JNull => Some(map[])
    case JObject(m) => Some(m)
    case _ => None
  }

  ghost function DecodeMark(j: Json): Option<Mark> {
    match j
    case JNull => Some(Mark(MarkKindOf(""), map[]))
    case JObject(fields) =>
      var typ := DecodeString(Find(fields, "type"));
      var attrs := DecodeAttrs(Find(fields, "attrs"));
      if typ.Some? && attrs.Some? then Some(Mark(MarkKindOf(typ.value), attrs.value)) else None
    case _ => None
  }

  /** Names that differ in case only are found too: this is a bold mark. */
  lemma MarkNamesFold()
    ensures DecodeMark(JObject(map["Type" := JString("bold")])) == Some(Mark(Bold, map[]))
  {
    var fields := map["Type" := JString("bold")];
    assert "Type" != "type" by { assert "Type"[0] == 'T'; }
    assert EqualFold("Type", "type") && |"attrs"| != |"Type"|;
    assert Find(fields, "type") == JString("bold") && Find(fields, "attrs") == JNull;
  }

  ghost function DecodeMarks(items: seq<Json>): (r: Option<seq<Mark>>)
    ensures r.Some? <==> forall i :: 0 <= i < |items| ==> DecodeMark(items[i]).Some?
    ensures r.Some? ==>
      |r.value| == |items| && forall i :: 0 <= i < |items| ==> DecodeMark(items[i]) == Some(r.value[i])
  {
    if items == [] then Some([])
    else
      var head := DecodeMark(items[0]);
      var tail := DecodeMarks(items[1..]);
      if head.Some? && tail.Some? then Some([head.value] + tail.value) else None
  }

  /** The array elements of a list-valued member. */
  function Elements(j: Json): Option<seq<Json>> {
    match j
    case JNull => Some([])
    case JArray(items) => Some(items)
    case _ => None
  }

  ghost function DecodeNode(j: Json): Option<Node>
    decreases j, 1
  {
    match j
    case JNull => Some(Node(KindOf(""), [], "", map[], []))
    case JObject(fields) =>
      var typ := DecodeString(Find(fields, "type"));
      var text := DecodeString(Find(fields, "text"));
      var attrs := DecodeAttrs(Find(fields, "attrs"));
      var marks := Elements(Find(fields, "marks"));
      var content := Elements(Find(fields, "content"));
      if typ.None? || text.None? || attrs.None? || marks.None? || content.None? then None
      else
        var nodes := if content.value == [] then Some([]) else DecodeNodes(content.value);
        var decodedMarks := DecodeMarks(marks.value);
        if nodes.None? || decodedMarks.None? then None
        else Some(Node(KindOf(typ.value), nodes.value, text.value, attrs.value, decodedMarks.value))
    case _ => None
  }

  ghost function DecodeNodes(items: seq<Json>): (r: Option<seq<Node>>)
    ensures r.Some? <==> forall i :: 0 <= i < |items| ==> DecodeNode(items[i]).Some?
    ensures r.Some? ==>
      |r.value| == |items| && forall i :: 0 <= i < |items| ==> DecodeNode(items[i]) == Some(r.value[i])
    decreases items, 0
  {
    if items == [] then Some([])
    else
      var head := DecodeNode(items[0]);
      var tail := DecodeNodes(items[1..]);
      if head.Some? && tail.Some? then Some([head.value] + tail.value) else None
  }

  /* ---------- the CMS validator ---------- */

  /** What `url.Parse` returns of a URL, as far as the validators look. */
  datatype Url = Url(scheme: string, host: string)

  datatype Check = Pass | Fail(at: string)

  function ValidateUrl(parse: string -> Option<Url>, rawUrl: string, path: string): Check {
    var url := TrimSpace(rawUrl);
    if HasPrefix(url, "/") then Pass
    else if HasPrefix(url, "mailto:") || HasPrefix(url, "tel:") then Pass
    else match parse(url)
      case None => Fail(path)
      case Some(u) =>
        if u.scheme != "http" && u.scheme != "https" then Fail(path)
        else if u.host == "" then Fail(path)
        else Pass
  }

  function MarkPath(path: string, i: nat): string {
    path + ".marks[" + Itoa(i) + "]"
  }

  function ChildPath(path: string, i: nat): string {
    path + ".content[" + Itoa(i) + "]"
  }

  function ValidateMark(parse: string -> Option<Url>, m: Mark, path: string): Check {
    match m.kind
    case UnknownMark(_) => Fail(path)
    case Link =>
      if "href" in m.attrs && m.attrs["href"].JString? && TrimSpace(m.attrs["href"].text) != ""
      then ValidateUrl(parse, m.attrs["href"].text, path + ".attrs.href")
      else Fail(path + ".attrs.href")
    case _ => Pass
  }

  function ValidateMarks(parse: string -> Option<Url>, marks: seq<Mark>, path: string, i: nat): (r: Check)
    requires i <= |marks|
    decreases |marks| - i
  {
    if i == |marks| then Pass
    else
      var r := ValidateMark(parse, marks[i], MarkPath(path, i));
      if r.Fail? then r else ValidateMarks(parse, marks, path, i + 1)
  }

  /** The path test that decides whether a node is checked as a root. */
  predicate RootPath(path: string) {
    path == "th" || path == "en" || path == "de" || !Contains(path, ".")
  }

  /** The checks on the node's own type. */
  function ValidateKind(parse: string -> Option<Url>, n: Node, path: string): Check {
    match n.kind
    case Heading =>
      if "level" in n.attrs && n.attrs["level"].JNumber? && 1.0 <= n.attrs["level"].number <= 6.0 then Pass
      else Fail(path + ".attrs.level")
    case Image =>
      if "src" in n.attrs && n.attrs["src"].JString? && n.attrs["src"].text != ""
      then ValidateUrl(parse, n.attrs["src"].text, path + ".attrs.src")
      else Fail(path + ".attrs.src")
    case Unknown(_) => Fail(path)
    case _ => Pass
  }

  function ValidateNode(parse: string -> Option<Url>, n: Node, path: string): Check
    decreases n, 1
  {
    if RootPath(path) && n.kind != Doc then Fail(path)
    else
      var kind := ValidateKind(parse, n, path);
      if kind.Fail? then kind
      else
        var marks := ValidateMarks(parse, n.marks, path, 0);
        if marks.Fail? then marks
        else ValidateContent(parse, n, path, 0)
  }

  function ValidateContent(parse: string -> Option<Url>, n: Node, path: string, i: nat): Check
    requires i <= |n.content|
    decreases n, 0, |n.content| - i
  {
    if i == |n.content| then Pass
    else
      var r := ValidateNode(parse, n.content[i], ChildPath(path, i));
      if r.Fail? then r else ValidateContent(parse, n, path, i + 1)
  }

  /* ---------- a path-free reading of the CMS validator ---------- */

  predicate MarksAllowed(parse: string -> Option<Url>, marks: seq<Mark>) {
    forall i :: 0 <= i < |marks| ==> ValidateMark(parse, marks[i], "").Pass?
  }

  /** Kind and marks of every node of the tree are allowed. */
  predicate TreeAllowed(parse: string -> Option<Url>, n: Node) {
    && ValidateKind(parse, n, "").Pass?
    && MarksAllowed(parse, n.marks)
    && forall i :: 0 <= i < |n.content| ==> TreeAllowed(parse, n.content[i])
  }

  lemma {:induction false} MarksPass(parse: string -> Option<Url>, marks: seq<Mark>, path: string, i: nat)
    requires i <= |marks|
    ensures ValidateMarks(parse, marks, path, i).Pass? <==>
      forall k :: i <= k < |marks| ==> ValidateMark(parse, marks[k], "").Pass?
    decreases |marks| - i
  {
    if i < |marks| {
      MarksPass(parse, marks, path, i + 1);
    }
  }

  lemma HasDot(s: string, i: nat)
    requires i < |s| && s[i] == '.'
    ensures Contains(s, ".")
  {
    assert OccursAt(s, ".", i);
  }

  /** A child is never checked as a root, whatever the locale key: its path has a dot. */
  lemma ChildrenAreNotRoots(path: string, i: nat)
    ensures !RootPath(ChildPath(path, i)) && Contains(ChildPath(path, i), ".")
  {
    var s := ChildPath(path, i);
    HasDot(s, |path|);
    assert s[|path|] == '.';
    assert '.' !in "th" && '.' !in "en" && '.' !in "de";
  }

  /** The path decides one thing only, whether the top node must be a doc: it must exactly when the
      locale key has no dot. */
  lemma {:induction false} PathMattersAtRootOnly(parse: string -> Option<Url>, n: Node, path: string)
    ensures ValidateNode(parse, n, path).Pass? <==>
      TreeAllowed(parse, n) && (Contains(path, ".") || n.kind == Doc)
    decreases n, 1
  {
    assert RootPath(path) <==> !Contains(path, ".") by {
      DotOccurs(path);
      assert '.' !in "th" && '.' !in "en" && '.' !in "de";
    }
    MarksPass(parse, n.marks, path, 0);
    ContentPasses(parse, n, path, 0);
  }

  lemma {:induction false} ChildPasses(parse: string -> Option<Url>, n: Node, path: string, i: nat)
    requires i < |n.content|
    ensures ValidateNode(parse, n.content[i], ChildPath(path, i)).Pass? <==> TreeAllowed(parse, n.content[i])
    decreases n, 0, 0
  {
    ChildrenAreNotRoots(path, i);
    PathMattersAtRootOnly(parse, n.content[i], ChildPath(path, i));
  }

  lemma {:induction false} ContentPasses(parse: string -> Option<Url>, n: Node, path: string, i: nat)
    requires i <= |n.content|
    ensures ValidateContent(parse, n, path, i).Pass? <==>
      forall k :: i <= k < |n.content| ==> TreeAllowed(parse, n.content[k])
    decreases n, 0, |n.content| - i
  {
    hide TreeAllowed, ValidateNode, ChildPath;
    if i < |n.content| {
      ChildPasses(parse, n, path, i);
      if TreeAllowed(parse, n.content[i]) {
        ContentPasses(parse, n, path, i + 1);
      }
    }
  }

  /* ---------- the CMS validator, as a grammar over the raw JSON ---------- */

  predicate TextOrNull(j: Json) {
    j.JNull? || j.JString?
  }

  predicate ObjectOrNull(j: Json) {
    j.JNull? || j.JObject?
  }

  predicate ListOrNull(j: Json) {
    j.JNull? || j.JArray?
  }

  function Items(j: Json): seq<Json> {
    if j.JArray? then j.items else []
  }

  const NODE_NAMES := {"doc", "paragraph", "heading", "bulletList", "orderedList", "listItem", "blockquote",
                       "horizontalRule", "hardBreak", "codeBlock", "image", "text"}

  const MARK_NAMES := {"bold", "italic", "strike", "underline", "code", "textStyle", "link"}

  /** Where the CMS lets links and images point: into the site, to a mail address or a telephone, or to a host
      over http or https. */
  predicate CmsTarget(parse: string -> Option<Url>, raw: string) {
    var t := TrimSpace(raw);
    || "/" <= t || "mailto:" <= t || "tel:" <= t
    || (parse(t).Some? && parse(t).value.scheme in {"http", "https"} && parse(t).value.host != "")
  }

  /** The type an object names. */
  ghost function TypeName(fields: map<string, Json>): string {
    if Find(fields, "type").JString? then Find(fields, "type").text else ""
  }

  predicate HasText(attrs: Json, name: string) {
    attrs.JObject? && name in attrs.fields && attrs.fields[name].JString?
  }

  /** A mark of one of the seven names; a link points somewhere the CMS allows. */
  ghost predicate CmsMark(parse: string -> Option<Url>, j: Json) {
    && j.JObject? && TypeName(j.fields) in MARK_NAMES && ObjectOrNull(Find(j.fields, "attrs"))
    && (TypeName(j.fields) == "link" ==>
          var attrs := Find(j.fields, "attrs");
          HasText(attrs, "href") && TrimSpace(attrs.fields["href"].text) != ""
          && CmsTarget(parse, attrs.fields["href"].text))
  }

  /** One of the twelve names; a heading has a level from one to six, an image a source. */
  ghost predicate CmsType(parse: string -> Option<Url>, name: string, attrs: Json) {
    && name in NODE_NAMES && (name == "heading" ==> HasLevel(attrs))
    && (name == "image" ==>
          HasText(attrs, "src") && attrs.fields["src"].text != "" && CmsTarget(parse, attrs.fields["src"].text))
  }

  /** A node of such a type with members of the right JSON types. */
  ghost predicate CmsObject(parse: string -> Option<Url>, j: Json) {
    && j.JObject? && CmsType(parse, TypeName(j.fields), Find(j.fields, "attrs"))
    && TextOrNull(Find(j.fields, "text")) && ObjectOrNull(Find(j.fields, "attrs"))
    && ListOrNull(Find(j.fields, "marks")) && ListOrNull(Find(j.fields, "content"))
  }

  /** Such a node all of whose marks are, and all of whose children are such nodes in turn. */
  ghost predicate CmsNode(parse: string -> Option<Url>, j: Json) {
    && CmsObject(parse, j)
    && (forall m :: m in Items(Find(j.fields, "marks")) ==> CmsMark(parse, m))
    && var children := Items(Find(j.fields, "content"));
       forall i :: 0 <= i < |children| ==> CmsNode(parse, children[i])
  }

  predicate HasLevel(attrs: Json) {
    && attrs.JObject? && "level" in attrs.fields && attrs.fields["level"].JNumber?
    && 1.0 <= attrs.fields["level"].number <= 6.0
  }

  ghost predicate IsDoc(j: Json) {
    j.JObject? && Find(j.fields, "type") == JString("doc")
  }

  lemma CmsTargetIff(parse: string -> Option<Url>, raw: string)
    ensures forall path :: ValidateUrl(parse, raw, path).Pass? <==> CmsTarget(parse, raw)
  {
    hide TrimSpace;
  }

  lemma DecodedMark(j: Json)
    requires j.JObject?
    ensures var attrs := Find(j.fields, "attrs");
      DecodeMark(j) ==
        if TextOrNull(Find(j.fields, "type")) && ObjectOrNull(attrs)
        then Some(Mark(MarkKindOf(TypeName(j.fields)), if attrs.JObject? then attrs.fields else map[])) else None
  {
    hide MarkKindOf, Find;
  }

  lemma CmsMarkIff(parse: string -> Option<Url>, j: Json)
    ensures (DecodeMark(j).Some? && ValidateMark(parse, DecodeMark(j).value, "").Pass?) <==> CmsMark(parse, j)
  {
    hide MarkKindOf, TrimSpace, CmsTarget, ValidateUrl, Find, DecodeMark;
    if j.JObject? {
      var attrs := Find(j.fields, "attrs");
      DecodedMark(j);
      MarkNames(TypeName(j.fields));
      if HasText(attrs, "href") {
        CmsTargetIff(parse, attrs.fields["href"].text);
      }
    } else {
      NoMark(parse, j);
    }
  }

  lemma NoMark(parse: string -> Option<Url>, j: Json)
    requires !j.JObject?
    ensures !CmsMark(parse, j)
    ensures DecodeMark(j).Some? ==> ValidateMark(parse, DecodeMark(j).value, "").Fail?
  {
    MarkNames("");
    hide MarkKindOf;
  }

  /** The members of an object that decodes. */
  ghost predicate Decodes(j: Json, n: Node) {
    && j.JObject? && Find(j.fields, "type") in {JNull, JString(TypeName(j.fields))}
    && TextOrNull(Find(j.fields, "text")) && ObjectOrNull(Find(j.fields, "attrs"))
    && ListOrNull(Find(j.fields, "marks")) && ListOrNull(Find(j.fields, "content"))
    && n.kind == KindOf(TypeName(j.fields))
    && n.attrs == (if Find(j.fields, "attrs").JObject? then Find(j.fields, "attrs").fields else map[])
    && DecodeMarks(Items(Find(j.fields, "marks"))) == Some(n.marks)
    && DecodeNodes(Items(Find(j.fields, "content"))) == Some(n.content)
  }

  lemma NodeDecodes(parse: string -> Option<Url>, j: Json)
    ensures j.JObject? && DecodeNode(j).Some? ==> Decodes(j, DecodeNode(j).value)
    ensures CmsObject(parse, j) ==>
      DecodeMarks(Items(Find(j.fields, "marks"))).Some? && DecodeNodes(Items(Find(j.fields, "content"))).Some?
      ==> DecodeNode(j).Some?
  {
    hide Find, DecodeMarks, DecodeNodes, KindOf, HasLevel, CmsTarget, HasText;
    NoNodes();
  }

  lemma NoNodes()
    ensures DecodeNodes([]) == Some([])
  {}

  lemma CmsTypeIff(parse: string -> Option<Url>, n: Node, name: string, attrs: Json)
    requires n.kind == KindOf(name) && n.attrs == (if attrs.JObject? then attrs.fields else map[])
    ensures ValidateKind(parse, n, "").Pass? <==> CmsType(parse, name, attrs)
  {
    hide KindOf, TrimSpace, CmsTarget, ValidateUrl;
    KindNames(name);
    if HasText(attrs, "src") {
      CmsTargetIff(parse, attrs.fields["src"].text);
    }
  }

  lemma CmsObjectIff(parse: string -> Option<Url>, j: Json, n: Node)
    requires Decodes(j, n)
    ensures ValidateKind(parse, n, "").Pass? <==> CmsObject(parse, j)
    ensures n.kind == Doc <==> IsDoc(j)
  {
    hide KindOf, ValidateKind, CmsType, Find, DecodeMarks, DecodeNodes;
    KindNames(TypeName(j.fields));
    CmsTypeIff(parse, n, TypeName(j.fields), Find(j.fields, "attrs"));
  }

  lemma {:induction false} CmsNodeIff(parse: string -> Option<Url>, j: Json)
    ensures (DecodeNode(j).Some? && TreeAllowed(parse, DecodeNode(j).value)) <==> CmsNode(parse, j)
    ensures DecodeNode(j).Some? ==> (DecodeNode(j).value.kind == Doc <==> IsDoc(j))
  {
    hide KindOf, Find, CmsMark, ValidateMark, ValidateKind, DecodeMark, DecodeNode, CmsObject;
    if j.JObject? {
      var marks, children := Items(Find(j.fields, "marks")), Items(Find(j.fields, "content"));
      forall i | 0 <= i < |marks| { CmsMarkIff(parse, marks[i]); }
      forall i | 0 <= i < |children| { CmsNodeIff(parse, children[i]); }
      NodeDecodes(parse, j);
      if DecodeNode(j).Some? {
        CmsObjectIff(parse, j, DecodeNode(j).value);
      }
    } else {
      NullIsNoNode(parse, j);
    }
  }

  /** What decodes as a mark. */
  ghost predicate MarkObject(j: Json) {
    j.JNull? || (j.JObject? && TextOrNull(Find(j.fields, "type")) && ObjectOrNull(Find(j.fields, "attrs")))
  }

  /** What decodes as a node: `null`, or an object all of whose members, marks and children are of their types. */
  ghost predicate NodeShape(j: Json) {
    || j.JNull?
    || (&& j.JObject? && TextOrNull(Find(j.fields, "type")) && TextOrNull(Find(j.fields, "text"))
        && ObjectOrNull(Find(j.fields, "attrs"))
        && ListOrNull(Find(j.fields, "marks")) && ListOrNull(Find(j.fields, "content"))
        && (forall m :: m in Items(Find(j.fields, "marks")) ==> MarkObject(m))
        && var children := Items(Find(j.fields, "content"));
           forall i :: 0 <= i < |children| ==> NodeShape(children[i]))
  }

  lemma MarkDecodesIff(j: Json)
    ensures DecodeMark(j).Some? <==> MarkObject(j)
  {
    hide Find;
  }

  lemma {:induction false} DecodesIff(j: Json)
    ensures DecodeNode(j).Some? <==> NodeShape(j)
  {
    hide Find, KindOf, DecodeMark, MarkObject;
    if j.JObject? {
      var marks, children := Items(Find(j.fields, "marks")), Items(Find(j.fields, "content"));
      forall i | 0 <= i < |marks| { MarkDecodesIff(marks[i]); }
      forall i | 0 <= i < |children| { DecodesIff(children[i]); }
    }
  }

  lemma NullIsNoNode(parse: string -> Option<Url>, j: Json)
    requires !j.JObject?
    ensures DecodeNode(j).Some? ==> DecodeNode(j).value.kind.Unknown? && !TreeAllowed(parse, DecodeNode(j).value)
    ensures !CmsNode(parse, j) && !IsDoc(j)
  {}

  /* ---------- all languages of a text ---------- */

  /** What is stored under a language: nothing or `null`, bytes that do not decode, or a decoded document. */
  datatype Stored = Blank | Undecodable | Decoded(node: Node)

  ghost function StoredAs(json: Json): Stored {
    if json.JNull? then Blank
    else match DecodeNode(json) case None => Undecodable case Some(node) => Decoded(node)
  }

  datatype Verdict = Accepted | Unreadable(locale: string) | Rejected(locale: string, at: string)

  function LocaleVerdict(parse: string -> Option<Url>, locale: string, stored: Stored): Verdict {
    match stored
    case Blank => Accepted
    case Undecodable => Unreadable(locale)
    case Decoded(node) =>
      match ValidateNode(parse, node, locale) case Pass => Accepted case Fail(at) => Rejected(locale, at)
  }

  /** Languages are visited in whatever order the map gives them; the first that fails is reported. */
  method ValidateLocalized(parse: string -> Option<Url>, texts: map<string, Stored>) returns (verdict: Verdict)
    ensures verdict == Accepted <==> forall l :: l in texts ==> LocaleVerdict(parse, l, texts[l]) == Accepted
    ensures verdict != Accepted ==> exists l :: l in texts && verdict == LocaleVerdict(parse, l, texts[l])
  {
    hide ValidateNode;
    var left := texts.Keys;
    while left != {}
      invariant left <= texts.Keys
      invariant forall l :: l in texts && l !in left ==> LocaleVerdict(parse, l, texts[l]) == Accepted
      decreases left
    {
      var locale :| locale in left;
      verdict := LocaleVerdict(parse, locale, texts[locale]);
      if verdict != Accepted {
        return;
      }
      left := left - {locale};
    }
    verdict := Accepted;
  }

  /** What acceptance of a language means: nothing is stored, or a tree all of whose nodes are allowed and
      which, unless the language key has a dot, is a doc. */
  lemma LocaleAccepted(parse: string -> Option<Url>, locale: string, stored: Stored)
    ensures LocaleVerdict(parse, locale, stored) == Accepted <==>
      || stored.Blank?
      || (stored.Decoded? && TreeAllowed(parse, stored.node) && (Contains(locale, ".") || stored.node.kind == Doc))
  {
    hide ValidateNode, TreeAllowed, Contains;
    if stored.Decoded? {
      PathMattersAtRootOnly(parse, stored.node, locale);
    }
  }

  /** The CMS accepts exactly: nothing, or a document of its grammar that is a doc unless the language key has
      a dot. */
  lemma CmsAcceptsExactly(parse: string -> Option<Url>, locale: string, json: Json)
    ensures LocaleVerdict(parse, locale, StoredAs(json)) == Accepted <==>
      json.JNull? || (CmsNode(parse, json) && ('.' in locale || IsDoc(json)))
    ensures LocaleVerdict(parse, locale, StoredAs(json)) == Unreadable(locale) <==> !NodeShape(json)
  {
    DecodesIff(json);
    hide CmsNode, IsDoc, TreeAllowed, Contains, DecodeNode;
    CmsNodeIff(parse, json);
    DotOccurs(locale);
    LocaleAccepted(parse, locale, StoredAs(json));
  }

  lemma DotOccurs(s: string)
    ensures Contains(s, ".") <==> '.' in s
  {
    if Contains(s, ".") {
      var i := IndexOf(s, ".").value;
      assert s[i] == s[i..i + 1][0];
    } else if '.' in s {
      var i :| 0 <= i < |s| && s[i] == '.';
      HasDot(s, i);
    }
  }
}
