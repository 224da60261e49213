/** The seed generator's rich text: plain or lightly marked-up fixture text becomes a document of
    paragraphs. */
module SeedRichText {
  import opened GoStrings
  import opened Json
  import opened RichText
  import C = CommunityRichText

  /* ---------- text to document ---------- */

  function TextNode(text: string): Node {
    Node(Text, [], text, map[], [])
  }

  function ParagraphOf(part: string): Node {
    var text := TrimSpace(part);
    Node(Paragraph, if text != "" then [TextNode(text)] else [], "", map[], [])
  }

  function Paragraphs(parts: seq<string>): (nodes: seq<Node>)
    ensures |nodes| == |parts| && forall i :: 0 <= i < |parts| ==> nodes[i] == ParagraphOf(parts[i])
  {
    if parts == [] then []
    else Paragraphs(parts[..|parts| - 1]) + [ParagraphOf(parts[|parts| - 1])]
  }

  function Parts(raw: string): (parts: seq<string>)
    ensures parts != []
  {
    Split(Normalised(TrimSpace(raw)), "\n\n")
  }

  function TextDocument(raw: string): Node {
    Node(Doc, Paragraphs(Parts(raw)), "", map[], [])
  }

  /** The source's loop. Its last branch, for a document left empty, is never taken. */
  method BuildTextDocument(raw: string) returns (doc: Node)
    ensures doc == TextDocument(raw) && doc.content != []
  {
    var normalized := ReplaceAll(TrimSpace(raw), "\r\n", "\n");
    var parts := Split(normalized, "\n\n");
    var paragraphs: seq<Node> := [];
    for i := 0 to |parts|
      invariant paragraphs == Paragraphs(parts[..i])
    {
      var text := TrimSpace(parts[i]);
      var paragraph := Node(Paragraph, [], "", map[], []);
      if text != "" {
        paragraph := paragraph.(content := [TextNode(text)]);
      }
      paragraphs := paragraphs + [paragraph];
      assert parts[..i + 1][..i] == parts[..i];
    }
    assert parts[..|parts|] == parts;
    if |paragraphs| == 0 {
      assert false;
    }
    doc := Node(Doc, paragraphs, "", map[], []);
  }

  /* ---------- document to text gives the words back ---------- */

  function AllFields(parts: seq<string>): seq<string> {
    if parts == [] then [] else Fields(parts[0]) + AllFields(parts[1..])
  }

  lemma {:induction false} AllFieldsAppend(parts: seq<string>, part: string)
    ensures AllFields(parts + [part]) == AllFields(parts) + Fields(part)
  {
    if parts != [] {
      AllFieldsAppend(parts[1..], part);
      assert (parts + [part])[1..] == parts[1..] + [part];
    }
  }

  lemma {:induction false} FieldsOfJoinedParts(parts: seq<string>)
    ensures Fields(Join(parts, "\n\n")) == AllFields(parts)
  {
    if |parts| > 1 {
      FieldsOfJoinedParts(parts[1..]);
      var rest := Join(parts[1..], "\n\n");
      FieldsSplit(parts[0], '\n', "\n" + rest);
      FieldsSplit("", '\n', rest);
      assert parts[0] + "\n\n" + rest == parts[0] + ['\n'] + ("\n" + rest);
      assert "\n" + rest == "" + ['\n'] + rest;
    } else if |parts| == 1 {
      assert AllFields(parts[1..]) == [];
    }
  }

  predicate LineEnd(w: string) {
    w == "" || w[|w| - 1] == '\n'
  }

  lemma FieldsAfterLineEnd(w: string, text: string)
    requires LineEnd(w)
    ensures Fields(w + (text + "\n")) == Fields(w) + Fields(text)
  {
    FieldsTrailingSpace(text, '\n');
    FieldsAfterSpace(w, text + "\n");
  }

  lemma ParagraphWritten(part: string)
    ensures C.Written(ParagraphOf(part)) == TrimSpace(part) + "\n"
  {
    var p := ParagraphOf(part);
    if TrimSpace(part) != "" {
      var node := TextNode(TrimSpace(part));
      assert p.content == [node] && p.content[..0] == [];
      assert C.WrittenAll([]) + C.Written(node) == TrimSpace(part);
    }
  }

  lemma NothingWritten()
    ensures C.WrittenAll(Paragraphs([])) == "" && LineEnd("") && Fields("") == AllFields([]) == []
  {}

  /** One more paragraph ends a line and adds the words of its part. */
  lemma WrittenNext(init: seq<string>, last: string)
    requires LineEnd(C.WrittenAll(Paragraphs(init)))
    ensures LineEnd(C.WrittenAll(Paragraphs(init + [last])))
    ensures Fields(C.WrittenAll(Paragraphs(init + [last]))) == Fields(C.WrittenAll(Paragraphs(init))) + Fields(last)
  {
    hide *;
    var parts := init + [last];
    assert parts[..|parts| - 1] == init && parts[|parts| - 1] == last;
    WrittenLast(parts);
    ParagraphWritten(last);
    FieldsTrimSpace(last);
    FieldsAfterLineEnd(C.WrittenAll(Paragraphs(init)), TrimSpace(last));
    EndsLine(C.WrittenAll(Paragraphs(init)), TrimSpace(last));
  }

  /** What the walk writes of a list of paragraphs ends a line and carries the words of the parts. */
  lemma {:induction false} WrittenParagraphs(parts: seq<string>)
    ensures LineEnd(C.WrittenAll(Paragraphs(parts)))
    ensures Fields(C.WrittenAll(Paragraphs(parts))) == AllFields(parts)
  {
    hide *;
    if parts == [] {
      NothingWritten();
    } else {
      var init, last := parts[..|parts| - 1], parts[|parts| - 1];
      WrittenParagraphs(init);
      WrittenNext(init, last);
      AllFieldsAppend(init, last);
      assert init + [last] == parts;
    }
  }

  lemma EndsLine(w: string, text: string)
    ensures LineEnd(w + (text + "\n"))
  {}

  lemma WrittenLast(parts: seq<string>)
    requires parts != []
    ensures C.WrittenAll(Paragraphs(parts)) ==
      C.WrittenAll(Paragraphs(parts[..|parts| - 1])) + C.Written(ParagraphOf(parts[|parts| - 1]))
  {
    assert Paragraphs(parts)[..|parts| - 1] == Paragraphs(parts[..|parts| - 1]);
  }

  lemma FieldsOfParts(raw: string)
    ensures AllFields(Parts(raw)) == Fields(raw)
  {
    JoinOfSplit(Normalised(TrimSpace(raw)), "\n\n");
    FieldsOfJoinedParts(Parts(raw));
    FieldsNormalised(TrimSpace(raw));
    FieldsTrimSpace(raw);
  }

  lemma DocumentWritten(raw: string)
    ensures C.Written(TextDocument(raw)) == C.WrittenAll(Paragraphs(Parts(raw)))
  {
    hide Parts, Paragraphs;
    var doc := TextDocument(raw);
    assert C.Written(doc) == C.WrittenAll(doc.content);
  }

  /** Round trip: flattening the document built from a text gives back the words of the text, in order,
      joined by single spaces. */
  lemma FlattenRestoresWords(raw: string)
    ensures C.PlainText(TextDocument(raw)) == Join(Fields(raw), " ")
    ensures Fields(C.PlainText(TextDocument(raw))) == Fields(raw)
  {
    var doc := TextDocument(raw);
    DocumentWritten(raw);
    WrittenParagraphs(Parts(raw));
    FieldsOfParts(raw);
    C.PlainTextIsNormal(doc);
    hide Fields, TextDocument, C.Written, C.WrittenAll, Join, Parts, Paragraphs;
  }

  /* ---------- paragraphs ---------- */

  /** A paragraph's text: trimmed, not empty, without a blank line or a carriage return. */
  predicate ParagraphText(t: string) {
    t != "" && Trimmed(t) && !Contains(t, "\n\n") && '\r' !in t
  }

  lemma BlankLineAfter(t: string, rest: string)
    requires ParagraphText(t)
    ensures IndexOf(t + "\n\n" + rest, "\n\n") == Some(|t|)
  {
    hide IndexOf, IsSpace;
    NewlineIsSpace();
    var s := t + "\n\n" + rest;
    assert s[|t|..|t| + 2] == "\n\n" && OccursAt(s, "\n\n", |t|);
    forall j: nat | j < |t| ensures !OccursAt(s, "\n\n", j) {
      if j + 2 <= |t| {
        assert s[j..j + 2] == t[j..j + 2] && !OccursAt(t, "\n\n", j);
      } else {
        assert s[j] == t[|t| - 1] != '\n' && s[j..j + 2][0] == s[j];
      }
    }
  }

  lemma NewlineIsSpace()
    ensures IsSpace('\n')
  {}

  /** Splitting at blank lines undoes joining by them. */
  lemma {:induction false} SplitParagraphs(texts: seq<string>)
    requires texts != [] && forall i :: 0 <= i < |texts| ==> ParagraphText(texts[i])
    ensures Split(Join(texts, "\n\n"), "\n\n") == texts
    decreases |texts|
  {
    hide IndexOf, ParagraphText;
    SplitSteps(Join(texts, "\n\n"), "\n\n");
    if |texts| == 1 {
      NoBlankLine(texts[0]);
    } else {
      var rest := Join(texts[1..], "\n\n");
      BlankLineAfter(texts[0], rest);
      SplitParagraphs(texts[1..]);
      var s := texts[0] + "\n\n" + rest;
      assert s == Join(texts, "\n\n") && s[..|texts[0]|] == texts[0] && s[|texts[0]| + 2..] == rest;
      assert texts == [texts[0]] + texts[1..];
    }
  }

  lemma NoBlankLine(t: string)
    requires ParagraphText(t)
    ensures IndexOf(t, "\n\n").None?
  {
    hide IndexOf;
  }

  lemma {:induction false} NoReturns(s: string)
    requires '\r' !in s
    ensures ReplaceAll(s, "\r\n", "\n") == s
  {
    if s != "" {
      NoReturns(s[1..]);
      assert s == [s[0]] + s[1..] && s[0] != '\r';
    }
  }

  lemma {:induction false} JoinedEnds(texts: seq<string>)
    requires texts != [] && forall i :: 0 <= i < |texts| ==> ParagraphText(texts[i])
    ensures var s := Join(texts, "\n\n"); s != "" && Trimmed(s) && '\r' !in s
    decreases |texts|
  {
    hide IsSpace, Contains;
    if |texts| > 1 {
      JoinedEnds(texts[1..]);
    }
  }

  /** Texts joined by blank lines become the paragraphs of the document, one each and in order. */
  lemma ParagraphsAreKept(texts: seq<string>)
    requires texts != [] && forall i :: 0 <= i < |texts| ==> ParagraphText(texts[i])
    ensures var doc := TextDocument(Join(texts, "\n\n"));
      && doc.kind == Doc && |doc.content| == |texts|
      && forall i :: 0 <= i < |texts| ==>
           doc.content[i] == Node(Paragraph, [Node(Text, [], texts[i], map[], [])], "", map[], [])
  {
    var s := Join(texts, "\n\n");
    JoinedEnds(texts);
    TrimSpaceIsTrimmed(s);
    NoReturns(s);
    SplitParagraphs(texts);
    hide TrimSpace, Split, ReplaceAll;
    forall i | 0 <= i < |texts| ensures TrimSpace(texts[i]) == texts[i] { TrimSpaceIsTrimmed(texts[i]); }
  }

  /* ---------- built documents pass both validators ---------- */

  function KindName(kind: Kind): string {
    match kind
    case Doc => "doc"
    case Paragraph => "paragraph"
    case _ => "text"
  }

  /** The JSON of a seed node, which leaves empty content and empty text out. */
  function Encode(n: Node): Json
    decreases n, 1
  {
    var typ := map["type" := JString(KindName(n.kind))];
    var content := if n.content == [] then map[] else map["content" := JArray(EncodeAll(n.content))];
    var text := if n.text == "" then map[] else map["text" := JString(n.text)];
    JObject(typ + content + text)
  }

  function EncodeAll(nodes: seq<Node>): (items: seq<Json>)
    ensures |items| == |nodes| && forall i :: 0 <= i < |nodes| ==> items[i] == Encode(nodes[i])
    decreases nodes, 0
  {
    if nodes == [] then [] else [Encode(nodes[0])] + EncodeAll(nodes[1..])
  }

  lemma KeysDiffer()
    ensures "type" != "content" && "type" != "text" && "content" != "text"
    ensures "attrs" !in {"type", "content", "text"} && "marks" !in {"type", "content", "text"}
  {
    assert "text"[1] != "type"[1];
  }

  lemma EncodedMembers(n: Node)
    ensures Encode(n).JObject?
    ensures var fields := Encode(n).fields;
      && Member(fields, "type") == JString(KindName(n.kind))
      && Member(fields, "content") == (if n.content == [] then JNull else JArray(EncodeAll(n.content)))
      && Member(fields, "text") == (if n.text == "" then JNull else JString(n.text))
      && Member(fields, "attrs") == JNull && Member(fields, "marks") == JNull
      && fields.Keys <= C.KEYS
  {
    KeysDiffer();
    hide EncodeAll, KindName;
    assert Encode(n).fields.Keys <= {"type", "content", "text"};
  }

  lemma KindNamed(kind: Kind)
    requires kind == Doc || kind == Paragraph || kind == Text
    ensures KindOf(KindName(kind)) == kind
  {}

  lemma EncodedObject(n: Node)
    requires n.kind == Doc || n.kind == Paragraph || n.kind == Text
    ensures C.NodeObject(Encode(n), KindName(n.kind)) && C.NoAttrs(Encode(n))
    ensures C.Children(Encode(n)) == EncodeAll(n.content)
    ensures Member(Encode(n).fields, "text") == (if n.text == "" then JNull else JString(n.text))
    ensures Items(Member(Encode(n).fields, "marks")) == []
  {
    hide Encode, EncodeAll, KindName, Member;
    EncodedMembers(n);
  }

  lemma NoMarksDecode()
    ensures DecodeMarks([]) == Some([])
  {}

  lemma EncodedParagraph(parse: string -> Option<Url>, part: string)
    ensures C.ParagraphGrammar(parse, Encode(ParagraphOf(part)))
  {
    var p := ParagraphOf(part);
    EncodedObject(p);
    if p.content != [] {
      EncodedObject(p.content[0]);
    }
  }

  predicate SeedNode(n: Node) {
    (n.kind == Doc || n.kind == Paragraph || n.kind == Text) && n.attrs == map[] && n.marks == []
  }

  lemma BuiltTreeIsSeed(raw: string)
    ensures C.Everywhere(TextDocument(raw), SeedNode)
  {
    var doc := TextDocument(raw);
    forall i | 0 <= i < |doc.content| ensures C.Everywhere(doc.content[i], SeedNode) {
      assert doc.content[i] == ParagraphOf(Parts(raw)[i]);
    }
  }

  lemma {:induction false} SeedTreeAllowed(parse: string -> Option<Url>, n: Node)
    requires C.Everywhere(n, SeedNode)
    ensures TreeAllowed(parse, n)
    decreases n
  {
    forall i | 0 <= i < |n.content| ensures TreeAllowed(parse, n.content[i]) {
      SeedTreeAllowed(parse, n.content[i]);
    }
  }

  lemma BuiltDocumentInGrammar(parse: string -> Option<Url>, raw: string)
    ensures C.DocGrammar(parse, Encode(TextDocument(raw)))
  {
    var doc := TextDocument(raw);
    EncodedObject(doc);
    forall i | 0 <= i < |doc.content| ensures C.BlockGrammar(parse, C.Children(Encode(doc))[i]) {
      EncodedParagraph(parse, Parts(raw)[i]);
    }
  }

  /** Every built document is one of the community grammar and passes the CMS validator under any key. */
  lemma BuiltDocumentsPass(parse: string -> Option<Url>, raw: string, path: string)
    ensures C.DocGrammar(parse, Encode(TextDocument(raw)))
    ensures ValidateNode(parse, TextDocument(raw), path).Pass?
  {
    BuiltDocumentInGrammar(parse, raw);
    BuiltTreeIsSeed(raw);
    SeedTreeAllowed(parse, TextDocument(raw));
    PathMattersAtRootOnly(parse, TextDocument(raw), path);
  }

  lemma {:induction false} DecodeOfEncode(n: Node)
    requires C.Everywhere(n, SeedNode)
    ensures DecodeNode(Encode(n)) == Some(n)
    decreases n
  {
    hide Encode, DecodeNode, KindOf, Find;
    forall i | 0 <= i < |n.content| ensures DecodeNode(EncodeAll(n.content)[i]) == Some(n.content[i]) {
      DecodeOfEncode(n.content[i]);
    }
    var nodes := DecodeNodes(EncodeAll(n.content));
    assert nodes.Some? && nodes.value == n.content;
    DecodeEncoded(n);
  }

  lemma DecodeEncoded(n: Node)
    requires SeedNode(n) && DecodeNodes(EncodeAll(n.content)) == Some(n.content)
    ensures DecodeNode(Encode(n)) == Some(n)
  {
    hide Encode, EncodeAll, KindName, KindOf, Find, Member, DecodeNodes, DecodeMarks;
    EncodedMembers(n);
    C.MembersFound(Encode(n).fields);
    KindNamed(n.kind);
    NoMarksDecode();
  }

  /** The stored form of every built document is one the CMS accepts under any language key. */
  lemma BuiltDocumentsAreAccepted(parse: string -> Option<Url>, raw: string, locale: string)
    ensures LocaleVerdict(parse, locale, StoredAs(Encode(TextDocument(raw)))) == Accepted
  {
    BuiltTreeIsSeed(raw);
    DecodeOfEncode(TextDocument(raw));
    BuiltDocumentsPass(parse, raw, locale);
  }

  /** A text that is not blank keeps at least one word. */
  lemma BuiltDocumentKeepsText(raw: string)
    requires TrimSpace(raw) != ""
    ensures C.PlainText(TextDocument(raw)) == Join(Fields(raw), " ") && Fields(raw) != []
  {
    hide C.PlainText, TextDocument, Join;
    FlattenRestoresWords(raw);
    FieldsTrimSpace(raw);
    TrimSpaceIsTrimmed(raw);
  }

  /** End to end: the validator accepts the stored form of a built document exactly when the limits are
      sane and admit the length of its normalised text, and returns that text. */
  lemma BuiltDocumentsValidate(parse: string -> Option<Url>, raw: string, limits: C.Limits, plain: string)
    ensures C.ValidateRichText(parse, Some(Encode(TextDocument(raw))), limits) == C.Ok(plain) <==>
      && plain == Join(Fields(raw), " ")
      && 0 <= limits.minText <= limits.maxText && limits.minText <= |plain| <= limits.maxText
  {
    BuiltTreeIsSeed(raw);
    DecodeOfEncode(TextDocument(raw));
    BuiltDocumentInGrammar(parse, raw);
    C.ValidateRichTextAccepts(parse, Some(Encode(TextDocument(raw))), limits, plain);
    FlattenRestoresWords(raw);
  }

  /* ---------- fixture markup ---------- */

  /** The replacer's pairs; at each position the first pattern that matches is replaced. */
  const PAIRS: seq<(string, string)> := [
    ("</p><p>", "\n\n"), ("</p>\n<p>", "\n\n"), ("<p>", ""), ("</p>", ""),
    ("<br>", "\n"), ("<br/>", "\n"), ("<br />", "\n")]

  function MatchAt(s: string, i: nat): (r: Option<(string, string)>)
    requires i <= |PAIRS|
    ensures r.Some? ==> r.value in PAIRS && r.value.0 <= s && r.value.0 != "" && r.value.0[0] == '<'
    decreases |PAIRS| - i
  {
    if i == |PAIRS| then None
    else if PAIRS[i].0 <= s then Some(PAIRS[i])
    else MatchAt(s, i + 1)
  }

  function Replace(s: string): string
    decreases |s|
  {
    if s == "" then ""
    else match MatchAt(s, 0)
      case Some(pair) => pair.1 + Replace(s[|pair.0|..])
      case None => [s[0]] + Replace(s[1..])
  }

  datatype Fixture = Built(doc: Node) | Unsupported(raw: string)

  function FixtureHtmlDocument(unescape: string -> string, raw: string): Fixture {
    var plain := unescape(Replace(TrimSpace(raw)));
    if ContainsAny(plain, "<>") then Unsupported(raw) else Built(TextDocument(plain))
  }

  lemma ReplaceOther(s: string)
    requires s != "" && s[0] != '<'
    ensures Replace(s) == [s[0]] + Replace(s[1..])
  {
    assert MatchAt(s, 0).None?;
  }

  /** Text without an angle bracket is copied. */
  lemma {:induction false} ReplaceCopies(text: string, rest: string)
    requires forall i :: 0 <= i < |text| ==> text[i] != '<'
    ensures Replace(text + rest) == text + Replace(rest)
  {
    hide MatchAt;
    if text == "" {
      assert text + rest == rest;
    } else {
      var tail := text[1..];
      assert (text + rest)[1..] == tail + rest;
      ReplaceOther(text + rest);
      ReplaceCopies(tail, rest);
      assert text == [text[0]] + tail;
    }
  }

  /** Paragraph texts put between paragraph tags, one after the other. */
  function Tagged(texts: seq<string>): string
    requires texts != []
  {
    texts[0] + "</p>" + if |texts| == 1 then "" else "<p>" + Tagged(texts[1..])
  }

  predicate Plain(texts: seq<string>) {
    forall k, i :: 0 <= k < |texts| && 0 <= i < |texts[k]| ==> texts[k][i] != '<' && texts[k][i] != '>'
  }

  lemma ReplaceOpening(rest: string)
    ensures Replace("<p>" + rest) == Replace(rest)
  {
    var s := "<p>" + rest;
    assert s[1] == 'p' && PAIRS[0].0[1] == PAIRS[1].0[1] == '/';
    assert s[..3] == PAIRS[2].0 && s[3..] == rest;
    assert MatchAt(s, 2) == Some(PAIRS[2]) && MatchAt(s, 1) == MatchAt(s, 2);
  }

  lemma ReplaceBoundary(rest: string)
    ensures Replace("</p><p>" + rest) == "\n\n" + Replace(rest)
  {
    var s := "</p><p>" + rest;
    assert s[..7] == PAIRS[0].0 && s[7..] == rest;
  }

  /** What the replacer does with each mark, wherever it stands. */
  lemma MarksReplaced(rest: string)
    ensures Replace("</p><p>" + rest) == "\n\n" + Replace(rest) == Replace("</p>\n<p>" + rest)
    ensures Replace("<p>" + rest) == Replace(rest)
    ensures Replace("<br>" + rest) == Replace("<br/>" + rest) == Replace("<br />" + rest) == "\n" + Replace(rest)
  {
    hide Replace;
    ReplaceOpening(rest);
    ReplaceBoundary(rest);
    MarkReplaced(1, rest);
    MarkReplaced(4, rest);
    MarkReplaced(5, rest);
    MarkReplaced(6, rest);
    PairsAre();
  }

  lemma PairsAre()
    ensures PAIRS[1] == ("</p>\n<p>", "\n\n") && PAIRS[4] == ("<br>", "\n")
    ensures PAIRS[5] == ("<br/>", "\n") && PAIRS[6] == ("<br />", "\n")
  {}

  lemma MarkReplaced(k: nat, rest: string)
    requires k in {1, 4, 5, 6}
    ensures Replace(PAIRS[k].0 + rest) == PAIRS[k].1 + Replace(rest)
  {
    var s := PAIRS[k].0 + rest;
    assert s[..|PAIRS[k].0|] == PAIRS[k].0 && s[|PAIRS[k].0|..] == rest;
    forall j | 0 <= j < k ensures !(PAIRS[j].0 <= s) { EarlierMarkDiffers(j, k, rest); }
    FirstMatch(s, k, 0);
  }

  lemma EarlierMarkDiffers(j: nat, k: nat, rest: string)
    requires k in {1, 4, 5, 6} && j < k
    ensures !(PAIRS[j].0 <= PAIRS[k].0 + rest)
  {
    var s, mark := PAIRS[k].0 + rest, PAIRS[j].0;
    if k == 1 {
      assert s[4] == '\n' && mark[4] == '<';
    } else if j < 4 {
      assert s[1] == 'b' && mark[1] != 'b';
    } else if j == 4 {
      assert s[3] != '>' && mark[3] == '>';
    } else {
      assert s[3] == ' ' && mark[3] == '/';
    }
  }

  lemma {:induction false} FirstMatch(s: string, k: nat, i: nat)
    requires i <= k < |PAIRS| && PAIRS[k].0 <= s && forall j :: i <= j < k ==> !(PAIRS[j].0 <= s)
    ensures MatchAt(s, i) == Some(PAIRS[k])
    decreases k - i
  {
    hide PAIRS;
    if i < k { FirstMatch(s, k, i + 1); }
  }

  /** Mark-up is unsupported exactly if an angle bracket is left when the marks are replaced and the entities
      decoded; what is supported becomes the document of that text. */
  lemma FixtureAnswer(unescape: string -> string, raw: string)
    ensures var plain, result := unescape(Replace(TrimSpace(raw))), FixtureHtmlDocument(unescape, raw);
      && (result == Unsupported(raw) <==> '<' in plain || '>' in plain)
      && (result.Built? ==> result.doc == TextDocument(plain))
  {
    hide Replace, TrimSpace;
    var plain := unescape(Replace(TrimSpace(raw)));
    if ContainsAny(plain, "<>") {
      var i :| 0 <= i < |plain| && plain[i] in "<>";
      assert plain[i] == '<' || plain[i] == '>';
    }
  }

  lemma ReplaceClosing()
    ensures Replace("</p>") == ""
  {
    var s := "</p>";
    assert s[..4] == PAIRS[3].0 && s[4..] == "" && PAIRS[2].0[1] == 'p';
    assert MatchAt(s, 3) == Some(PAIRS[3]) && MatchAt(s, 2) == MatchAt(s, 3);
    assert MatchAt(s, 1) == MatchAt(s, 2);
  }

  lemma ReplaceLast(text: string)
    requires forall i :: 0 <= i < |text| ==> text[i] != '<'
    ensures Replace(text + "</p>") == text
  {
    ReplaceClosing();
    ReplaceCopies(text, "</p>");
  }

  lemma ReplaceNext(text: string, rest: string)
    requires forall i :: 0 <= i < |text| ==> text[i] != '<'
    ensures Replace(text + "</p>" + ("<p>" + rest)) == text + "\n\n" + Replace(rest)
  {
    hide Replace;
    ReplaceBoundary(rest);
    ReplaceCopies(text, "</p><p>" + rest);
    assert text + "</p>" + ("<p>" + rest) == text + ("</p><p>" + rest);
  }

  lemma PlainTail(texts: seq<string>)
    requires texts != [] && Plain(texts)
    ensures Plain(texts[1..])
  {
    assert forall k :: 0 <= k < |texts| - 1 ==> texts[1..][k] == texts[k + 1];
  }

  lemma {:induction false} ReplaceTagged(texts: seq<string>)
    requires texts != [] && Plain(texts)
    ensures Replace(Tagged(texts)) == Join(texts, "\n\n")
    decreases |texts|
  {
    if |texts| == 1 {
      ReplaceLast(texts[0]);
      assert Tagged(texts) == texts[0] + "</p>";
    } else {
      PlainTail(texts);
      ReplaceTagged(texts[1..]);
      ReplaceNext(texts[0], Tagged(texts[1..]));
    }
  }

  lemma TaggedIsTrimmed(texts: seq<string>)
    requires texts != []
    ensures TrimSpace("<p>" + Tagged(texts)) == "<p>" + Tagged(texts)
  {
    TaggedEnds(texts);
    TrimSpaceIsTrimmed("<p>" + Tagged(texts));
  }

  /** Marked-up paragraphs become a document whose plain text is the words of the paragraphs, in order;
      `unescape` stands for entity decoding and is assumed to leave these texts alone. */
  lemma MarkedUpParagraphs(unescape: string -> string, texts: seq<string>)
    requires texts != [] && Plain(texts)
    requires unescape(Join(texts, "\n\n")) == Join(texts, "\n\n")
    ensures var result := FixtureHtmlDocument(unescape, "<p>" + Tagged(texts));
      && result.Built? && result.doc == TextDocument(Join(texts, "\n\n"))
      && C.PlainText(result.doc) == Join(AllFields(texts), " ")
  {
    TaggedIsTrimmed(texts);
    ReplaceOpening(Tagged(texts));
    ReplaceTagged(texts);
    JoinIsPlain(texts);
    FlattenRestoresWords(Join(texts, "\n\n"));
    FieldsOfJoinedParts(texts);
  }

  lemma {:induction false} TaggedEnds(texts: seq<string>)
    requires texts != []
    ensures Tagged(texts) != "" && Tagged(texts)[|Tagged(texts)| - 1] == '>'
    decreases |texts|
  {
    if |texts| > 1 {
      TaggedEnds(texts[1..]);
    }
  }

  lemma {:induction false} JoinIsPlain(texts: seq<string>)
    requires Plain(texts)
    ensures !ContainsAny(Join(texts, "\n\n"), "<>")
    decreases |texts|
  {
    if |texts| > 1 {
      PlainTail(texts);
      JoinIsPlain(texts[1..]);
    }
  }
}
