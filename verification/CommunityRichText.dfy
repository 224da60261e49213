/** The community's rich-text validator. It walks a document's raw JSON and its decoded tree side
    by side and then extracts the plain text. */
module CommunityRichText {
  import opened GoStrings
  import opened Json
  import opened RichText

  /* ---------- links ---------- */

  predicate IsSafeHref(parse: string -> Option<Url>, raw: string) {
    var href := TrimSpace(raw);
    if href == "" || ContainsAny(href, "\r\n\0") || HasPrefix(href, "//") then false
    else if HasPrefix(href, "/") then true
    else match parse(href)
      case None => false
      case Some(u) => EqualFold(u.scheme, "https") && u.host != ""
  }

  /** Where a community link may point, character by character: to a path of the site, but not to another host
      in its short form, or to a host over https; and never with a line break or a NUL in it. */
  predicate SafeTarget(parse: string -> Option<Url>, raw: string) {
    var t := TrimSpace(raw);
    && t != "" && '\r' !in t && '\n' !in t && '\0' !in t
    && if t[0] == '/' then |t| == 1 || t[1] != '/' else parse(t).Some? && IsHttps(parse(t).value)
  }

  /** A scheme that is `https` up to case, and a host. */
  predicate IsHttps(u: Url) {
    && |u.scheme| == 5 && u.scheme[0] in "hH" && u.scheme[1] in "tT" && u.scheme[2] in "tT" && u.scheme[3] in "pP"
    && u.scheme[4] in "sS\U{017F}" && u.host != ""
  }

  lemma HttpsIff(u: Url)
    ensures IsHttps(u) <==> EqualFold(u.scheme, "https") && u.host != ""
  {
    EqualFoldIff(u.scheme, "https");
  }

  lemma NoneOf(s: string)
    ensures ContainsAny(s, "\r\n\0") <==> '\r' in s || '\n' in s || '\0' in s
  {
    if ContainsAny(s, "\r\n\0") {
      var i :| 0 <= i < |s| && s[i] in "\r\n\0";
      assert s[i] == '\r' || s[i] == '\n' || s[i] == '\0';
    }
  }

  lemma SafeHrefIff(parse: string -> Option<Url>, raw: string)
    ensures IsSafeHref(parse, raw) <==> SafeTarget(parse, raw)
  {
    hide TrimSpace, ContainsAny, EqualFold, IsHttps;
    var t := TrimSpace(raw);
    NoneOf(t);
    if parse(t).Some? {
      HttpsIff(parse(t).value);
    }
  }

  /* ---------- the validator ---------- */

  predicate KnownKeys(fields: map<string, Json>) {
    fields.Keys <= {"type", "content", "text", "attrs", "marks"}
  }

  function ValidateMark(parse: string -> Option<Url>, m: Mark, path: string): Check {
    match m.kind
    case Bold => if |m.attrs| > 0 then Fail(path + ".attrs") else Pass
    case Link =>
      if |m.attrs| != 1 then Fail(path + ".attrs")
      else if "href" in m.attrs && m.attrs["href"].JString? && IsSafeHref(parse, m.attrs["href"].text) then Pass
      else Fail(path + ".attrs.href")
    case _ => Fail(path)
  }

  function ValidateMarks(parse: string -> Option<Url>, marks: seq<Mark>, path: string, i: nat): Check
    requires i <= |marks|
    decreases |marks| - i
  {
    if i == |marks| then Pass
    else
      var r := ValidateMark(parse, marks[i], MarkPath(path, i));
      if r.Fail? then r else ValidateMarks(parse, marks, path, i + 1)
  }

  /** The checks on one node, its children aside. */
  function ValidateOwn(parse: string -> Option<Url>, node: Node, path: string, root: bool): Check {
    match node.kind
    case Doc => if !root then Fail(path) else Pass
    case Paragraph => if |node.attrs| > 0 then Fail(path + ".attrs") else Pass
    case BulletList => if |node.attrs| > 0 then Fail(path + ".attrs") else Pass
    case OrderedList => if |node.attrs| > 0 then Fail(path + ".attrs") else Pass
    case ListItem => if |node.attrs| > 0 then Fail(path + ".attrs") else Pass
    case Text =>
      if node.text == "" || |node.content| > 0 || |node.attrs| > 0 then Fail(path)
      else ValidateMarks(parse, node.marks, path, 0)
    case _ => Fail(path)
  }

  ghost function MarshalChild(raw: Json, i: nat): Option<Json> {
    match raw
    case JNull => None
    case JObject(fields) =>
      var items := Elements(Find(fields, "content"));
      if items.Some? && i < |items.value| then Some(items.value[i]) else None
    case _ => None
  }

  predicate ChildKindAllowed(parent: Kind, child: Kind) {
    && (parent == Paragraph ==> child == Text)
    && (parent == BulletList || parent == OrderedList ==> child == ListItem)
    && (parent == ListItem ==> child == Paragraph)
  }

  ghost function ValidateNode(parse: string -> Option<Url>, raw: Json, node: Node, path: string, root: bool): Check
    decreases node, 1
  {
    if !raw.JObject? || !KnownKeys(raw.fields) then Fail(path)
    else if root && node.kind != Doc then Fail(path)
    else
      var own := ValidateOwn(parse, node, path, root);
      if own.Fail? then own else ValidateContent(parse, raw, node, path, 0)
  }

  ghost function ValidateContent(parse: string -> Option<Url>, raw: Json, node: Node, path: string, i: nat): Check
    requires i <= |node.content|
    decreases node, 0, |node.content| - i
  {
    if i == |node.content| then Pass
    else
      var child := node.content[i];
      match MarshalChild(raw, i)
      case None => Fail(path)
      case Some(rawChild) =>
        if !ChildKindAllowed(node.kind, child.kind) then Fail(ChildPath(path, i))
        else
          var r := ValidateNode(parse, rawChild, child, ChildPath(path, i), false);
          if r.Fail? then r else ValidateContent(parse, raw, node, path, i + 1)
  }

  /* ---------- lockstep of the two walks ---------- */

  /** At every depth the raw child is found and decodes to the node's child. */
  ghost predicate InLockstep(raw: Json, node: Node) {
    && DecodeNode(raw) == Some(node)
    && forall i :: 0 <= i < |node.content| ==>
         MarshalChild(raw, i).Some? && InLockstep(MarshalChild(raw, i).value, node.content[i])
  }

  lemma {:induction false} DecodedIsInLockstep(raw: Json, node: Node)
    requires DecodeNode(raw) == Some(node)
    ensures InLockstep(raw, node)
    decreases node
  {
    forall i | 0 <= i < |node.content|
      ensures MarshalChild(raw, i).Some? && InLockstep(MarshalChild(raw, i).value, node.content[i])
    {
      DecodedIsInLockstep(MarshalChild(raw, i).value, node.content[i]);
    }
  }

  /* ---------- the accepted language, as a grammar over the raw JSON ---------- */

  const KEYS := {"type", "content", "text", "attrs", "marks"}

  /** A bold mark without attributes, or a link with a safe target and nothing else. */
  ghost predicate MarkGrammar(parse: string -> Option<Url>, j: Json) {
    && j.JObject?
    && var attrs := Find(j.fields, "attrs");
       || (TypeName(j.fields) == "bold" && attrs in {JNull, JObject(map[])})
       || (TypeName(j.fields) == "link" && HasText(attrs, "href") && attrs.fields.Keys == {"href"}
           && SafeTarget(parse, attrs.fields["href"].text))
  }

  /** An object of the given type with no members but the five known ones, each of the right JSON type. */
  ghost predicate NodeObject(j: Json, name: string) {
    && j.JObject? && j.fields.Keys <= KEYS && Member(j.fields, "type") == JString(name)
    && TextOrNull(Member(j.fields, "text")) && ObjectOrNull(Member(j.fields, "attrs"))
    && ListOrNull(Member(j.fields, "marks")) && ListOrNull(Member(j.fields, "content"))
    && forall m :: m in Items(Member(j.fields, "marks")) ==> MarkObject(m)
  }

  function Children(j: Json): seq<Json>
    requires j.JObject?
  {
    Items(Member(j.fields, "content"))
  }

  predicate NoAttrs(j: Json)
    requires j.JObject?
  {
    Member(j.fields, "attrs") in {JNull, JObject(map[])}
  }

  ghost predicate TextGrammar(parse: string -> Option<Url>, j: Json) {
    && NodeObject(j, "text") && NoAttrs(j) && Children(j) == []
    && Member(j.fields, "text") !in {JNull, JString("")}
    && forall m :: m in Items(Member(j.fields, "marks")) ==> MarkGrammar(parse, m)
  }

  ghost predicate ParagraphGrammar(parse: string -> Option<Url>, j: Json) {
    NodeObject(j, "paragraph") && NoAttrs(j)
    && forall i :: 0 <= i < |Children(j)| ==> TextGrammar(parse, Children(j)[i])
  }

  ghost predicate ItemGrammar(parse: string -> Option<Url>, j: Json) {
    NodeObject(j, "listItem") && NoAttrs(j)
    && forall i :: 0 <= i < |Children(j)| ==> ParagraphGrammar(parse, Children(j)[i])
  }

  ghost predicate ListGrammar(parse: string -> Option<Url>, j: Json) {
    && (NodeObject(j, "bulletList") || NodeObject(j, "orderedList")) && NoAttrs(j)
    && forall i :: 0 <= i < |Children(j)| ==> ItemGrammar(parse, Children(j)[i])
  }

  ghost predicate BlockGrammar(parse: string -> Option<Url>, j: Json) {
    TextGrammar(parse, j) || ParagraphGrammar(parse, j) || ItemGrammar(parse, j) || ListGrammar(parse, j)
  }

  ghost predicate DocGrammar(parse: string -> Option<Url>, j: Json) {
    NodeObject(j, "doc") && forall i :: 0 <= i < |Children(j)| ==> BlockGrammar(parse, Children(j)[i])
  }

  /* ---------- the walk accepts exactly the grammar ---------- */

  /** Acceptance of a decoded mark. */
  predicate MarkAccepted(parse: string -> Option<Url>, m: Mark) {
    || (m.kind == Bold && m.attrs == map[])
    || (m.kind == Link && m.attrs.Keys == {"href"} && m.attrs["href"].JString?
        && SafeTarget(parse, m.attrs["href"].text))
  }

  lemma MarkAcceptedIff(parse: string -> Option<Url>, m: Mark, path: string)
    ensures ValidateMark(parse, m, path).Pass? <==> MarkAccepted(parse, m)
  {
    hide IsSafeHref, SafeTarget;
    if m.kind == Link && |m.attrs| == 1 && "href" in m.attrs {
      assert |m.attrs.Keys - {"href"}| == 0;
      assert m.attrs.Keys == {"href"};
    }
    if m.attrs.Keys == {"href"} {
      assert |m.attrs| == |m.attrs.Keys| == 1;
    }
    if "href" in m.attrs && m.attrs["href"].JString? {
      SafeHrefIff(parse, m.attrs["href"].text);
    }
  }

  lemma MarkGrammarIff(parse: string -> Option<Url>, j: Json, m: Mark)
    requires DecodeMark(j) == Some(m)
    ensures MarkAccepted(parse, m) <==> MarkGrammar(parse, j)
  {
    hide MarkKindOf, SafeTarget, Find;
    MarkNames("");
    if j.JObject? {
      MarkNames(TypeName(j.fields));
    }
  }

  lemma {:induction false} MarksAcceptedIff(parse: string -> Option<Url>, marks: seq<Mark>, path: string, i: nat)
    requires i <= |marks|
    ensures ValidateMarks(parse, marks, path, i).Pass?
      <==> forall k :: i <= k < |marks| ==> MarkAccepted(parse, marks[k])
    decreases |marks| - i
  {
    hide ValidateMark, MarkAccepted, MarkPath;
    if i < |marks| {
      MarkAcceptedIff(parse, marks[i], MarkPath(path, i));
      MarksAcceptedIff(parse, marks, path, i + 1);
    }
  }

  /** Child `i` is of an allowed kind and passes on its own. */
  ghost predicate ChildPasses(parse: string -> Option<Url>, raw: Json, node: Node, path: string, i: nat)
    requires i < |node.content|
  {
    && MarshalChild(raw, i).Some? && ChildKindAllowed(node.kind, node.content[i].kind)
    && ValidateNode(parse, MarshalChild(raw, i).value, node.content[i], ChildPath(path, i), false).Pass?
  }

  lemma {:induction false} ContentPassesIff(parse: string -> Option<Url>, raw: Json, node: Node, path: string, i: nat)
    requires i <= |node.content|
    ensures ValidateContent(parse, raw, node, path, i).Pass? <==>
      forall k :: i <= k < |node.content| ==> ChildPasses(parse, raw, node, path, k)
    decreases |node.content| - i
  {
    hide ValidateNode, MarshalChild, ChildKindAllowed, ChildPath;
    if i < |node.content| {
      ContentPassesIff(parse, raw, node, path, i + 1);
      var passes := ChildPasses(parse, raw, node, path, i);
    }
  }

  lemma FindIsMember(fields: map<string, Json>, name: string)
    requires fields.Keys <= KEYS && name in KEYS
    ensures Find(fields, name) == Member(fields, name)
  {
    assert forall key :: key in KEYS ==> IsLower(key);
    hide IsLower, Find;
    FindAmongLower(fields, name);
  }

  lemma MembersFound(fields: map<string, Json>)
    requires fields.Keys <= KEYS
    ensures Find(fields, "type") == Member(fields, "type") && Find(fields, "text") == Member(fields, "text")
    ensures Find(fields, "attrs") == Member(fields, "attrs") && Find(fields, "marks") == Member(fields, "marks")
    ensures Find(fields, "content") == Member(fields, "content")
  {
    hide Find, Member;
    FindIsMember(fields, "type");
    FindIsMember(fields, "text");
    FindIsMember(fields, "attrs");
    FindIsMember(fields, "marks");
    FindIsMember(fields, "content");
  }

  /** What a decoded node holds is what the members of its JSON say. */
  lemma DecodedMembers(j: Json, node: Node)
    requires DecodeNode(j) == Some(node) && j.JObject? && j.fields.Keys <= KEYS
    ensures node.kind == KindOf(TypeName(j.fields)) && |Children(j)| == |node.content|
    ensures NoAttrs(j) <==> |node.attrs| == 0
    ensures NodeObject(j, TypeName(j.fields)) || TypeName(j.fields) == ""
    ensures Member(j.fields, "text") in {JNull, JString("")} <==> node.text == ""
    ensures DecodeMarks(Items(Member(j.fields, "marks"))) == Some(node.marks)
    ensures forall i :: 0 <= i < |node.content| ==>
      MarshalChild(j, i) == Some(Children(j)[i]) && DecodeNode(Children(j)[i]) == Some(node.content[i])
  {
    MembersFound(j.fields);
    var marks := Items(Member(j.fields, "marks"));
    forall i | 0 <= i < |marks| { MarkDecodesIff(marks[i]); }
    hide KindOf, Find, DecodeMark, MarkObject;
  }

  /** A node that is of the grammar's type has its kind. */
  lemma ObjectKind(j: Json, node: Node, name: string)
    requires DecodeNode(j) == Some(node) && NodeObject(j, name)
    ensures node.kind == KindOf(name) && TypeName(j.fields) == name
  {
    hide KindOf, Find, MarkObject;
    MembersFound(j.fields);
  }

  lemma ObjectKeys(j: Json, name: string)
    requires NodeObject(j, name)
    ensures j.JObject? && KnownKeys(j.fields)
  {}

  lemma NamedIff(j: Json, node: Node, name: string)
    requires DecodeNode(j) == Some(node) && j.JObject? && j.fields.Keys <= KEYS && name != ""
    ensures NodeObject(j, name) <==> TypeName(j.fields) == name
  {
    DecodedMembers(j, node);
    hide DecodeNode, MarkObject, DecodeMarks, MarshalChild;
    MembersFound(j.fields);
  }

  lemma TextIff(parse: string -> Option<Url>, j: Json, node: Node, path: string)
    requires DecodeNode(j) == Some(node) && node.kind == Text
    ensures ValidateNode(parse, j, node, path, false).Pass? <==> TextGrammar(parse, j)
  {
    hide KindOf, Find, MarshalChild, DecodeNodes, DecodeMarks, DecodeAttrs, DecodeString, MarkGrammar, MarkAccepted;
    if j.JObject? && KnownKeys(j.fields) {
      DecodedMembers(j, node);
      KindNames(TypeName(j.fields));
      MarksAcceptedIff(parse, node.marks, path, 0);
      var marks := Items(Member(j.fields, "marks"));
      forall i | 0 <= i < |marks| { MarkGrammarIff(parse, marks[i], node.marks[i]); }
    }
  }

  /** A node of another kind is not of the grammar's type. */
  lemma OtherKind(j: Json, node: Node, name: string)
    requires DecodeNode(j) == Some(node) && node.kind != KindOf(name)
    ensures !NodeObject(j, name)
  {
    hide NodeObject, KindOf;
    if NodeObject(j, name) {
      ObjectKind(j, node, name);
    }
  }

  lemma ParagraphIff(parse: string -> Option<Url>, j: Json, node: Node, path: string)
    requires DecodeNode(j) == Some(node) && node.kind == Paragraph
    ensures ValidateNode(parse, j, node, path, false).Pass? <==> ParagraphGrammar(parse, j)
  {
    hide KindOf, Find, MarshalChild, DecodeMarks, DecodeAttrs, DecodeString, ChildPath, MarkObject, MarkGrammar;
    if j.JObject? && KnownKeys(j.fields) {
      DecodedMembers(j, node);
      KindNames(TypeName(j.fields));
      KindNames("text");
      ContentPassesIff(parse, j, node, path, 0);
      forall i | 0 <= i < |node.content|
        ensures ChildPasses(parse, j, node, path, i) <==> TextGrammar(parse, Children(j)[i])
      {
        if node.content[i].kind == Text {
          TextIff(parse, Children(j)[i], node.content[i], ChildPath(path, i));
        } else {
          OtherKind(Children(j)[i], node.content[i], "text");
        }
      }
    }
  }

  lemma ItemIff(parse: string -> Option<Url>, j: Json, node: Node, path: string)
    requires DecodeNode(j) == Some(node) && node.kind == ListItem
    ensures ValidateNode(parse, j, node, path, false).Pass? <==> ItemGrammar(parse, j)
  {
    hide KindOf, Find, MarshalChild, DecodeMarks, DecodeAttrs, DecodeString, ChildPath, MarkObject;
    if j.JObject? && KnownKeys(j.fields) {
      DecodedMembers(j, node);
      KindNames(TypeName(j.fields));
      KindNames("paragraph");
      ContentPassesIff(parse, j, node, path, 0);
      forall i | 0 <= i < |node.content|
        ensures ChildPasses(parse, j, node, path, i) <==> ParagraphGrammar(parse, Children(j)[i])
      {
        if node.content[i].kind == Paragraph {
          ParagraphIff(parse, Children(j)[i], node.content[i], ChildPath(path, i));
        } else {
          OtherKind(Children(j)[i], node.content[i], "paragraph");
        }
      }
    }
  }

  lemma ListIff(parse: string -> Option<Url>, j: Json, node: Node, path: string)
    requires DecodeNode(j) == Some(node) && (node.kind == BulletList || node.kind == OrderedList)
    ensures ValidateNode(parse, j, node, path, false).Pass? <==> ListGrammar(parse, j)
  {
    hide KindOf, Find, MarshalChild, DecodeMarks, DecodeAttrs, DecodeString, ChildPath, MarkObject;
    if j.JObject? && KnownKeys(j.fields) {
      DecodedMembers(j, node);
      KindNames(TypeName(j.fields));
      KindNames("listItem");
      ContentPassesIff(parse, j, node, path, 0);
      forall i | 0 <= i < |node.content|
        ensures ChildPasses(parse, j, node, path, i) <==> ItemGrammar(parse, Children(j)[i])
      {
        if node.content[i].kind == ListItem {
          ItemIff(parse, Children(j)[i], node.content[i], ChildPath(path, i));
        } else {
          OtherKind(Children(j)[i], node.content[i], "listItem");
        }
      }
    }
  }

  /** What the kinds of blocks are called. */
  lemma BlockNames()
    ensures KindOf("text") == Text && KindOf("paragraph") == Paragraph && KindOf("listItem") == ListItem
    ensures KindOf("bulletList") == BulletList && KindOf("orderedList") == OrderedList && KindOf("doc") == Doc
  {
    KindNames("text");
    KindNames("paragraph");
    KindNames("listItem");
    KindNames("bulletList");
    KindNames("orderedList");
    KindNames("doc");
  }

  lemma BlockIff(parse: string -> Option<Url>, j: Json, node: Node, path: string)
    requires DecodeNode(j) == Some(node)
    ensures ValidateNode(parse, j, node, path, false).Pass? <==> BlockGrammar(parse, j)
  {
    hide KindOf, NodeObject, NoAttrs, DecodeNode, MarkGrammar, Children, Member, ValidateContent, ValidateMarks;
    BlockNames();
    forall name | node.kind != KindOf(name) ensures !NodeObject(j, name) { OtherKind(j, node, name); }
    match node.kind
    case Text => TextIff(parse, j, node, path);
    case Paragraph => ParagraphIff(parse, j, node, path);
    case ListItem => ItemIff(parse, j, node, path);
    case BulletList => ListIff(parse, j, node, path);
    case OrderedList => ListIff(parse, j, node, path);
    case _ =>
  }

  /** The two-tree walk accepts exactly the documents of the five-level grammar. */
  lemma AcceptsExactlyTheGrammar(parse: string -> Option<Url>, j: Json, node: Node)
    requires DecodeNode(j) == Some(node)
    ensures ValidateNode(parse, j, node, "body", true).Pass? <==> DocGrammar(parse, j)
  {
    hide KindOf, TypeName, MarshalChild, ChildPath, NodeObject, DecodeNode, BlockGrammar, DecodeMarks;
    if j.JObject? && KnownKeys(j.fields) {
      DecodedMembers(j, node);
      KindNames(TypeName(j.fields));
      NamedIff(j, node, "doc");
      ContentPassesIff(parse, j, node, "body", 0);
      if node.kind == Doc {
        forall i | 0 <= i < |node.content|
          ensures ChildPasses(parse, j, node, "body", i) <==> BlockGrammar(parse, Children(j)[i])
        {
          BlockIff(parse, Children(j)[i], node.content[i], ChildPath("body", i));
        }
      }
    } else if NodeObject(j, "doc") {
      ObjectKeys(j, "doc");
    }
  }

  /* ---------- what acceptance guarantees ---------- */

  lemma ObjectDecodes(j: Json, name: string)
    requires NodeObject(j, name) && forall i :: 0 <= i < |Children(j)| ==> DecodeNode(Children(j)[i]).Some?
    ensures DecodeNode(j).Some?
  {
    MembersFound(j.fields);
    var marks := Items(Member(j.fields, "marks"));
    forall i | 0 <= i < |marks| { MarkDecodesIff(marks[i]); }
    assert DecodeNodes(Children(j)).Some? && DecodeMarks(marks).Some?;
    hide Find, MarkObject, DecodeMark, KindOf;
  }

  /** A document of the grammar always decodes. */
  lemma GrammarDecodes(parse: string -> Option<Url>, j: Json)
    requires DocGrammar(parse, j)
    ensures DecodeNode(j).Some?
  {
    forall i | 0 <= i < |Children(j)| ensures DecodeNode(Children(j)[i]).Some? {
      BlockDecodes(parse, Children(j)[i]);
    }
    ObjectDecodes(j, "doc");
  }

  lemma ParagraphDecodes(parse: string -> Option<Url>, j: Json)
    requires ParagraphGrammar(parse, j)
    ensures DecodeNode(j).Some?
  {
    forall i | 0 <= i < |Children(j)| ensures DecodeNode(Children(j)[i]).Some? {
      ObjectDecodes(Children(j)[i], "text");
    }
    ObjectDecodes(j, "paragraph");
  }

  lemma ItemDecodes(parse: string -> Option<Url>, j: Json)
    requires ItemGrammar(parse, j)
    ensures DecodeNode(j).Some?
  {
    forall i | 0 <= i < |Children(j)| ensures DecodeNode(Children(j)[i]).Some? {
      ParagraphDecodes(parse, Children(j)[i]);
    }
    ObjectDecodes(j, "listItem");
  }

  lemma BlockDecodes(parse: string -> Option<Url>, j: Json)
    requires BlockGrammar(parse, j)
    ensures DecodeNode(j).Some?
  {
    if ParagraphGrammar(parse, j) {
      ParagraphDecodes(parse, j);
    } else if ItemGrammar(parse, j) {
      ItemDecodes(parse, j);
    } else if ListGrammar(parse, j) {
      forall i | 0 <= i < |Children(j)| ensures DecodeNode(Children(j)[i]).Some? {
        ItemDecodes(parse, Children(j)[i]);
      }
      ObjectDecodes(j, if NodeObject(j, "bulletList") then "bulletList" else "orderedList");
    } else {
      ObjectDecodes(j, "text");
    }
  }

  function Height(n: Node): nat
    decreases n, 1
  {
    1 + MaxHeight(n.content)
  }

  function MaxHeight(nodes: seq<Node>): (h: nat)
    decreases nodes, 0
  {
    if nodes == [] then 0
    else
      var rest := MaxHeight(nodes[1..]);
      if Height(nodes[0]) > rest then Height(nodes[0]) else rest
  }

  lemma {:induction false} MaxHeightWithin(nodes: seq<Node>, h: nat)
    requires forall i :: 0 <= i < |nodes| ==> Height(nodes[i]) <= h
    ensures MaxHeight(nodes) <= h
  {
    if nodes != [] {
      MaxHeightWithin(nodes[1..], h);
    }
  }

  /** How deep a tree below a node of this kind can be. */
  function HeightLimit(kind: Kind): nat {
    match kind
    case Doc => 5
    case BulletList => 4
    case OrderedList => 4
    case ListItem => 3
    case Paragraph => 2
    case _ => 1
  }

  /** An accepted document has at most five levels: doc, list, list item, paragraph, text. */
  lemma {:induction false} AcceptedHeight(parse: string -> Option<Url>, raw: Json, node: Node, path: string, root: bool)
    requires ValidateNode(parse, raw, node, path, root).Pass?
    ensures Height(node) <= HeightLimit(node.kind) <= 5
    decreases node
  {
    ContentPassesIff(parse, raw, node, path, 0);
    forall i | 0 <= i < |node.content| ensures Height(node.content[i]) <= HeightLimit(node.kind) - 1 {
      assert ChildPasses(parse, raw, node, path, i);
      AcceptedHeight(parse, MarshalChild(raw, i).value, node.content[i], ChildPath(path, i), false);
    }
    MaxHeightWithin(node.content, HeightLimit(node.kind) - 1);
  }

  /** Every node of the tree satisfies `p`. */
  ghost predicate Everywhere(n: Node, p: Node -> bool) {
    p(n) && forall i :: 0 <= i < |n.content| ==> Everywhere(n.content[i], p)
  }

  /** A bold mark without attributes, or a link whose one attribute is a safe target. */
  ghost predicate SafeMark(parse: string -> Option<Url>, m: Mark) {
    m == Mark(Bold, map[])
    || (m.kind == Link && exists href :: m.attrs == map["href" := JString(href)] && SafeTarget(parse, href))
  }

  /** Every mark on every text node of an accepted document is bold or a link to a safe target. */
  lemma {:induction false} AcceptedLinksAreSafe(parse: string -> Option<Url>, raw: Json, node: Node, path: string,
                                                root: bool)
    requires ValidateNode(parse, raw, node, path, root).Pass?
    ensures Everywhere(node, (n: Node) => n.kind == Text ==> forall m :: m in n.marks ==> SafeMark(parse, m))
    decreases node
  {
    if node.kind == Text {
      MarksAcceptedIff(parse, node.marks, path, 0);
      forall m | m in node.marks ensures SafeMark(parse, m) { AcceptedMarkIsSafe(parse, m); }
    }
    ContentPassesIff(parse, raw, node, path, 0);
    hide SafeMark;
    forall i | 0 <= i < |node.content|
      ensures Everywhere(node.content[i], (n: Node) =>
        n.kind == Text ==> forall m :: m in n.marks ==> SafeMark(parse, m))
    {
      assert ChildPasses(parse, raw, node, path, i);
      AcceptedLinksAreSafe(parse, MarshalChild(raw, i).value, node.content[i], ChildPath(path, i), false);
    }
  }

  lemma AcceptedMarkIsSafe(parse: string -> Option<Url>, m: Mark)
    requires MarkAccepted(parse, m)
    ensures SafeMark(parse, m)
  {
    hide SafeTarget;
    if m.kind == Link {
      assert m.attrs == map["href" := JString(m.attrs["href"].text)];
    }
  }

  /* ---------- inclusion in the CMS validator ---------- */

  /** A scheme as `url.Parse` returns it, lower-cased (section 3.1 of RFC 3986). */
  predicate SchemeLetters(scheme: string) {
    forall i :: 0 <= i < |scheme| ==>
      'a' <= scheme[i] <= 'z' || '0' <= scheme[i] <= '9' || scheme[i] in "+-."
  }

  ghost predicate LowersScheme(parse: string -> Option<Url>) {
    forall s :: parse(s).Some? ==> SchemeLetters(parse(s).value.scheme)
  }

  lemma AcceptedMarkIsAllowed(parse: string -> Option<Url>, m: Mark)
    requires LowersScheme(parse) && MarkAccepted(parse, m)
    ensures RichText.ValidateMark(parse, m, "").Pass?
  {
    hide TrimSpace;
    if m.kind == Link {
      SafeHrefIff(parse, m.attrs["href"].text);
      var href := TrimSpace(m.attrs["href"].text);
      if !HasPrefix(href, "/") {
        var scheme := parse(href).value.scheme;
        assert |scheme| == |"https"|;
        assert FoldChar(scheme[0]) == 'h' && FoldChar(scheme[1]) == 't' && FoldChar(scheme[2]) == 't';
        assert FoldChar(scheme[3]) == 'p' && FoldChar(scheme[4]) == 's';
        assert scheme == "https";
      }
    }
  }

  /** Wherever a node other than text carries marks, the CMS allows them. */
  predicate OtherMarksAllowed(parse: string -> Option<Url>, n: Node) {
    && (n.kind != Text ==> MarksAllowed(parse, n.marks))
    && forall i :: 0 <= i < |n.content| ==> OtherMarksAllowed(parse, n.content[i])
  }

  lemma {:induction false} AcceptedTreeAllowed(parse: string -> Option<Url>, raw: Json, node: Node, path: string,
                                               root: bool)
    requires LowersScheme(parse) && ValidateNode(parse, raw, node, path, root).Pass?
    ensures TreeAllowed(parse, node) <==> OtherMarksAllowed(parse, node)
    decreases node
  {
    if node.kind == Text {
      MarksAcceptedIff(parse, node.marks, path, 0);
      forall i | 0 <= i < |node.marks| ensures RichText.ValidateMark(parse, node.marks[i], "").Pass? {
        AcceptedMarkIsAllowed(parse, node.marks[i]);
      }
    }
    ContentPassesIff(parse, raw, node, path, 0);
    forall i | 0 <= i < |node.content|
      ensures TreeAllowed(parse, node.content[i]) <==> OtherMarksAllowed(parse, node.content[i])
    {
      assert ChildPasses(parse, raw, node, path, i);
      AcceptedTreeAllowed(parse, MarshalChild(raw, i).value, node.content[i], ChildPath(path, i), false);
    }
  }

  /** Inclusion, exactly: an accepted document passes the CMS validator under any locale key if and only if
      the marks on its other nodes, which the community validator never looks at, are ones the CMS allows. */
  lemma InclusionInCms(parse: string -> Option<Url>, j: Json, node: Node, locale: string)
    requires LowersScheme(parse) && ValidateNode(parse, j, node, "body", true).Pass?
    ensures RichText.ValidateNode(parse, node, locale).Pass? <==> OtherMarksAllowed(parse, node)
  {
    AcceptedTreeAllowed(parse, j, node, "body", true);
    PathMattersAtRootOnly(parse, node, locale);
  }

  lemma EmptyMark()
    ensures DecodeMarks([JObject(map[])]) == Some([Mark(UnknownMark(""), map[])])
    ensures KindOf("doc") == Doc
  {
    assert MarkKindOf("") == UnknownMark("");
    var d := DecodeMarks([JObject(map[])]);
    assert DecodeMark(JObject(map[])) == Some(Mark(UnknownMark(""), map[]));
    assert d.Some? && d.value == [Mark(UnknownMark(""), map[])];
  }

  const MARKED_DOC := map["type" := JString("doc"), "marks" := JArray([JObject(map[])])]

  lemma MarkedDocFinds()
    ensures KnownKeys(MARKED_DOC)
    ensures Find(MARKED_DOC, "type") == JString("doc") && Find(MARKED_DOC, "marks") == JArray([JObject(map[])])
    ensures Find(MARKED_DOC, "text") == Find(MARKED_DOC, "attrs") == Find(MARKED_DOC, "content") == JNull
  {
    assert "text"[1] != "type"[1] && |"attrs"| == |"marks"| && "attrs"[0] != "marks"[0];
    assert IsLower("type") && IsLower("marks") && IsLower("text") && IsLower("attrs") && IsLower("content");
    hide Find, IsLower;
    FindAmongLower(MARKED_DOC, "type");
    FindAmongLower(MARKED_DOC, "marks");
    FindAmongLower(MARKED_DOC, "text");
    FindAmongLower(MARKED_DOC, "attrs");
    FindAmongLower(MARKED_DOC, "content");
  }

  /** The accepted document `{"type":"doc","marks":[{}]}` fails the CMS validator. */
  lemma InclusionFailsOnOtherMarks(parse: string -> Option<Url>, locale: string) returns (j: Json, node: Node)
    ensures DecodeNode(j) == Some(node) && ValidateNode(parse, j, node, "body", true).Pass?
    ensures RichText.ValidateNode(parse, node, locale).Fail?
  {
    j := JObject(MARKED_DOC);
    node := Node(Doc, [], "", map[], [Mark(UnknownMark(""), map[])]);
    EmptyMark();
    MarkedDocFinds();
    hide KindOf, Find, DecodeMarks, MARKED_DOC, KnownKeys;
    assert DecodeNode(j) == Some(node);
    PathMattersAtRootOnly(parse, node, locale);
    assert RichText.ValidateMark(parse, node.marks[0], "").Fail?;
  }

  /* ---------- plain text ---------- */

  /** What the walk of a node writes. */
  function Written(n: Node): string
    decreases n, 1
  {
    if n.kind == Text then n.text
    else WrittenAll(n.content) + if n.kind == Paragraph || n.kind == ListItem then "\n" else ""
  }

  function WrittenAll(nodes: seq<Node>): string
    decreases nodes, 0
  {
    if nodes == [] then ""
    else WrittenAll(nodes[..|nodes| - 1]) + Written(nodes[|nodes| - 1])
  }

  function PlainText(n: Node): string {
    Join(Fields(Written(n)), " ")
  }

  class Builder {
    var text: string

    constructor ()
      ensures text == ""
    {
      text := "";
    }

    method Write(s: string)
      modifies this
      ensures text == old(text) + s
    {
      text := text + s;
    }
  }

  method Walk(current: Node, builder: Builder)
    modifies builder
    ensures builder.text == old(builder.text) + Written(current)
    decreases current
  {
    if current.kind == Text {
      builder.Write(current.text);
      return;
    }
    for i := 0 to |current.content|
      invariant builder.text == old(builder.text) + WrittenAll(current.content[..i])
    {
      Walk(current.content[i], builder);
      assert current.content[..i + 1][..i] == current.content[..i];
    }
    assert current.content[..|current.content|] == current.content;
    if current.kind == Paragraph || current.kind == ListItem {
      builder.Write("\n");
    }
  }

  method NormalizePlainText(node: Node) returns (plain: string)
    ensures plain == PlainText(node)
  {
    var builder := new Builder();
    Walk(node, builder);
    assert builder.text == Written(node);
    plain := Join(Fields(builder.text), " ");
  }

  /** Plain text is already normalised: it is its own words joined by single spaces. */
  lemma PlainTextIsNormal(n: Node)
    ensures Fields(PlainText(n)) == Fields(Written(n)) && Join(Fields(PlainText(n)), " ") == PlainText(n)
  {
    FieldsAreWords(Written(n));
    FieldsOfJoin(Fields(Written(n)));
  }

  datatype Limits = Limits(minText: int, maxText: int)
  datatype Reason = InvalidLimits | InvalidJson | Invalid(at: string) | WrongLength
  datatype Result = Ok(plain: string) | Err(reason: Reason)

  /** `raw` is None when the bytes are not JSON. */
  ghost function ValidateRichText(parse: string -> Option<Url>, raw: Option<Json>, limits: Limits): Result {
    if limits.minText < 0 || limits.maxText < limits.minText then Err(InvalidLimits)
    else if raw.None? then Err(InvalidJson)
    else match DecodeNode(raw.value)
      case None => Err(InvalidJson)
      case Some(node) =>
        match ValidateNode(parse, raw.value, node, "body", true)
        case Fail(at) => Err(Invalid(at))
        case Pass =>
          var plain := PlainText(node);
          if |plain| < limits.minText || |plain| > limits.maxText then Err(WrongLength) else Ok(plain)
  }

  /** The whole validator: it accepts exactly the grammar's documents whose plain text is within sane
      limits, and returns that text. */
  lemma ValidateRichTextAccepts(parse: string -> Option<Url>, raw: Option<Json>, limits: Limits, plain: string)
    ensures ValidateRichText(parse, raw, limits) == Ok(plain) <==>
      && 0 <= limits.minText <= limits.maxText
      && raw.Some? && DocGrammar(parse, raw.value)
      && DecodeNode(raw.value).Some? && plain == PlainText(DecodeNode(raw.value).value)
      && limits.minText <= |plain| <= limits.maxText
    ensures ValidateRichText(parse, raw, limits) == Err(InvalidLimits) <==> !(0 <= limits.minText <= limits.maxText)
    ensures ValidateRichText(parse, raw, limits) == Err(InvalidJson) <==>
      0 <= limits.minText <= limits.maxText && (raw.None? || !NodeShape(raw.value))
    ensures ValidateRichText(parse, raw, limits) == Err(WrongLength) <==>
      && 0 <= limits.minText <= limits.maxText && raw.Some? && DocGrammar(parse, raw.value)
      && DecodeNode(raw.value).Some?
      && !(limits.minText <= |PlainText(DecodeNode(raw.value).value)| <= limits.maxText)
  {
    hide DocGrammar, ValidateNode, PlainText, NodeShape, DecodeNode;
    if raw.Some? { DecodesIff(raw.value); }
    if raw.Some? && DecodeNode(raw.value).Some? {
      AcceptsExactlyTheGrammar(parse, raw.value, DecodeNode(raw.value).value);
    }
  }
}
