/** Origin lists, from the configuration to the CORS handler. `url.Parse` is a parameter. */
module Origins {
  import opened GoStrings

  /* backend/internal/security/origins.go, and how backend/internal/config/account_auth.go and
     backend/cmd/app/main.go use it. */

  datatype Url = Url(scheme: string, host: string, path: string, rawQuery: string, fragment: string)

  datatype Fault = Required | Wildcard | NotAnOrigin(part: string) | NotHttps(part: string)

  datatype Parsed = Accepted(origins: seq<string>) | Refused(fault: Fault)

  /* ---------- the meaning of a list ---------- */

  predicate IsOrigin(u: Url) {
    u.host != "" && u.path == "" && u.rawQuery == "" && u.fragment == "" && (u.scheme == "http" || u.scheme == "https")
  }

  /** What is wrong with one trimmed part. */
  function PartFault(parse: string -> Option<Url>, requireHttps: bool, part: string): Option<Fault> {
    if part == "" || Contains(part, "*") then Some(Wildcard)
    else if parse(part).None? || !IsOrigin(parse(part).value) then Some(NotAnOrigin(part))
    else if requireHttps && parse(part).value.scheme != "https" then Some(NotHttps(part))
    else None
  }

  function TrimmedParts(value: string): (parts: seq<string>)
    ensures parts != []
  {
    var raw := Split(value, ",");
    seq(|raw|, i requires 0 <= i < |raw| => TrimSpace(raw[i]))
  }

  /** Each element where it occurs first. */
  function Distinct(parts: seq<string>): seq<string> {
    if parts == [] then []
    else
      var init, last := parts[..|parts| - 1], parts[|parts| - 1];
      if last in init then Distinct(init) else Distinct(init) + [last]
  }

  predicate AllFine(parse: string -> Option<Url>, requireHttps: bool, parts: seq<string>) {
    forall i :: 0 <= i < |parts| ==> PartFault(parse, requireHttps, parts[i]).None?
  }

  /** Acceptance means that every part is an origin, and gives the distinct parts; otherwise the first
      faulty part is reported. */
  ghost predicate Means(parse: string -> Option<Url>, value: string, requireHttps: bool, result: Parsed) {
    var parts := TrimmedParts(value);
    if TrimSpace(value) == "" then result == Refused(Required)
    else if AllFine(parse, requireHttps, parts) then result == Accepted(Distinct(parts))
    else exists i :: 0 <= i < |parts| && AllFine(parse, requireHttps, parts[..i])
                     && PartFault(parse, requireHttps, parts[i]).Some?
                     && result == Refused(PartFault(parse, requireHttps, parts[i]).value)
  }

  lemma DistinctMembers(parts: seq<string>, p: string)
    ensures p in Distinct(parts) <==> p in parts
  {
    if parts != [] {
      DistinctMembers(parts[..|parts| - 1], p);
      assert parts == parts[..|parts| - 1] + [parts[|parts| - 1]];
    }
  }

  /** The checks of one trimmed part, in the source's order. */
  method CheckPart(parse: string -> Option<Url>, requireHttps: bool, part: string) returns (fault: Option<Fault>)
    ensures fault == PartFault(parse, requireHttps, part)
  {
    hide Contains;
    if part == "" || Contains(part, "*") {
      return Some(Wildcard);
    }
    var u := parse(part);
    if u.None? || u.value.host == "" || u.value.path != "" || u.value.rawQuery != "" || u.value.fragment != ""
       || (u.value.scheme != "http" && u.value.scheme != "https") {
      return Some(NotAnOrigin(part));
    }
    if requireHttps && u.value.scheme != "https" {
      return Some(NotHttps(part));
    }
    return None;
  }

  /** What is known after the first `i` parts. */
  ghost predicate Scanned(parse: string -> Option<Url>, requireHttps: bool, parts: seq<string>, i: nat,
                          seen: set<string>, origins: seq<string>)
  {
    && i <= |parts| && AllFine(parse, requireHttps, parts[..i]) && origins == Distinct(parts[..i])
    && forall p :: p in seen <==> p in parts[..i]
  }

  lemma ScanStarts(parse: string -> Option<Url>, value: string, requireHttps: bool)
    ensures TrimSpace(value) == "" ==> Means(parse, value, requireHttps, Refused(Required))
    ensures |TrimmedParts(value)| == |Split(value, ",")|
    ensures forall i :: 0 <= i < |Split(value, ",")| ==> TrimmedParts(value)[i] == TrimSpace(Split(value, ",")[i])
    ensures Scanned(parse, requireHttps, TrimmedParts(value), 0, {}, [])
  {
    hide PartFault, TrimSpace, Split;
  }

  lemma ScanStep(parse: string -> Option<Url>, requireHttps: bool, parts: seq<string>, i: nat,
                 seen: set<string>, origins: seq<string>)
    requires Scanned(parse, requireHttps, parts, i, seen, origins) && i < |parts|
    requires PartFault(parse, requireHttps, parts[i]).None?
    ensures var known := parts[i] in seen;
      Scanned(parse, requireHttps, parts, i + 1,
              if known then seen else seen + {parts[i]}, if known then origins else origins + [parts[i]])
  {
    hide PartFault;
    assert parts[..i + 1] == parts[..i] + [parts[i]] && parts[..i + 1][..i] == parts[..i];
  }

  lemma ScanFails(parse: string -> Option<Url>, value: string, requireHttps: bool, i: nat, seen: set<string>,
                  origins: seq<string>)
    requires TrimSpace(value) != "" && i < |TrimmedParts(value)|
    requires Scanned(parse, requireHttps, TrimmedParts(value), i, seen, origins)
    requires PartFault(parse, requireHttps, TrimmedParts(value)[i]).Some?
    ensures Means(parse, value, requireHttps, Refused(PartFault(parse, requireHttps, TrimmedParts(value)[i]).value))
  {
    hide PartFault, TrimSpace, TrimmedParts, Distinct;
  }

  lemma ScanEnds(parse: string -> Option<Url>, value: string, requireHttps: bool, seen: set<string>,
                 origins: seq<string>)
    requires TrimSpace(value) != ""
    requires Scanned(parse, requireHttps, TrimmedParts(value), |TrimmedParts(value)|, seen, origins)
    ensures Means(parse, value, requireHttps, Accepted(origins))
  {
    hide PartFault, TrimSpace, TrimmedParts, Distinct;
    var parts := TrimmedParts(value);
    assert parts[..|parts|] == parts;
  }

  /** The source's loop over the parts. */
  method ParseOrigins(parse: string -> Option<Url>, value: string, requireHttps: bool) returns (result: Parsed)
    ensures Means(parse, value, requireHttps, result)
  {
    hide *;
    ScanStarts(parse, value, requireHttps);
    if TrimSpace(value) == "" {
      return Refused(Required);
    }
    var raw := Split(value, ",");
    var seen: set<string> := {};
    var origins: seq<string> := [];
    ghost var parts := TrimmedParts(value);
    for i := 0 to |raw|
      invariant Scanned(parse, requireHttps, parts, i, seen, origins)
    {
      var part := TrimSpace(raw[i]);
      var fault := CheckPart(parse, requireHttps, part);
      if fault.Some? {
        ScanFails(parse, value, requireHttps, i, seen, origins);
        return Refused(fault.value);
      }
      ScanStep(parse, requireHttps, parts, i, seen, origins);
      if part in seen {
        continue;
      }
      seen := seen + {part};
      origins := origins + [part];
    }
    ScanEnds(parse, value, requireHttps, seen, origins);
    result := Accepted(origins);
  }

  /* ---------- the answer, part by part ---------- */

  /** What every part must be: a text without wildcards that parses to a scheme, http only where allowed, and a
      host, and to nothing else. */
  predicate Proper(parse: string -> Option<Url>, requireHttps: bool, p: string) {
    && p != "" && '*' !in p && parse(p).Some?
    && var u := parse(p).value;
       && (u.scheme == "https" || (u.scheme == "http" && !requireHttps))
       && |u.host| > 0 && |u.path| == 0 && |u.rawQuery| == 0 && |u.fragment| == 0
  }

  /** What is said of a part that is not. */
  function Complaint(parse: string -> Option<Url>, p: string): Fault {
    if p == "" || '*' in p then Wildcard else if Proper(parse, false, p) then NotHttps(p) else NotAnOrigin(p)
  }

  lemma StarOccurs(s: string)
    ensures Contains(s, "*") <==> '*' in s
  {
    hide IndexOf;
    if Contains(s, "*") {
      var i := IndexOf(s, "*").value;
      assert s[i] == s[i..i + 1][0];
    } else {
      forall i | 0 <= i < |s| ensures s[i] != '*' {
        assert !OccursAt(s, "*", i) && s[i..i + 1] == [s[i]];
      }
    }
  }

  lemma ProperIff(parse: string -> Option<Url>, requireHttps: bool, p: string)
    ensures PartFault(parse, requireHttps, p) ==
      if Proper(parse, requireHttps, p) then None else Some(Complaint(parse, p))
  {
    StarOccurs(p);
    hide Contains;
  }

  lemma ComplaintIsNotRequired(parse: string -> Option<Url>, p: string)
    ensures Complaint(parse, p) != Required
  {}

  /** A list is refused as missing if and only if it is blank, and accepted if and only if it is not and every
      trimmed part between its commas is proper; it then holds just these parts. */
  lemma OriginsAccepted(parse: string -> Option<Url>, value: string, requireHttps: bool, result: Parsed)
    requires Means(parse, value, requireHttps, result)
    ensures result == Refused(Required) <==> AllSpace(value)
    ensures var raw := Split(value, ",");
      && (result.Accepted? <==>
            !AllSpace(value) && forall i :: 0 <= i < |raw| ==> Proper(parse, requireHttps, TrimSpace(raw[i])))
      && (result.Accepted? ==>
            forall p :: p in result.origins <==> exists i :: 0 <= i < |raw| && TrimSpace(raw[i]) == p)
  {
    TrimSpaceBlank(value);
    hide TrimSpace, PartFault, Split, Proper, Complaint, AllSpace, Distinct;
    var raw, parts := Split(value, ","), TrimmedParts(value);
    forall i | 0 <= i < |raw|
      ensures parts[i] == TrimSpace(raw[i])
      ensures PartFault(parse, requireHttps, parts[i]).None? <==> Proper(parse, requireHttps, TrimSpace(raw[i]))
      ensures PartFault(parse, requireHttps, parts[i]) != Some(Required)
    {
      ProperIff(parse, requireHttps, parts[i]);
      ComplaintIsNotRequired(parse, parts[i]);
    }
    if result.Accepted? {
      forall p { DistinctMembers(parts, p); }
    }
  }

  /** Otherwise the first improper part is complained of. */
  lemma OriginsRefused(parse: string -> Option<Url>, value: string, requireHttps: bool, fault: Fault) returns (i: nat)
    requires Means(parse, value, requireHttps, Refused(fault)) && !AllSpace(value)
    ensures var raw := Split(value, ",");
      i < |raw| && FirstImproper(parse, requireHttps, raw, i) && fault == Complaint(parse, TrimSpace(raw[i]))
  {
    TrimSpaceBlank(value);
    hide TrimSpace, PartFault, Split, Proper, Complaint, AllSpace, Distinct;
    var raw, parts := Split(value, ","), TrimmedParts(value);
    i :| 0 <= i < |parts| && AllFine(parse, requireHttps, parts[..i])
      && PartFault(parse, requireHttps, parts[i]).Some?
      && fault == PartFault(parse, requireHttps, parts[i]).value;
    ProperIff(parse, requireHttps, parts[i]);
    forall j | 0 <= j < i ensures Proper(parse, requireHttps, TrimSpace(raw[j])) {
      assert parts[..i][j] == parts[j];
      ProperIff(parse, requireHttps, parts[j]);
    }
  }

  predicate FirstImproper(parse: string -> Option<Url>, requireHttps: bool, raw: seq<string>, i: nat)
    requires i < |raw|
  {
    && !Proper(parse, requireHttps, TrimSpace(raw[i]))
    && forall j :: 0 <= j < i ==> Proper(parse, requireHttps, TrimSpace(raw[j]))
  }

  /* ---------- no duplicates, first occurrences in order ---------- */

  predicate NoDuplicates(s: seq<string>) {
    forall i, j :: 0 <= i < j < |s| ==> s[i] != s[j]
  }

  /** `p` occurs in `parts` before any `q`. */
  predicate FirstBefore(parts: seq<string>, p: string, q: string) {
    exists i :: 0 <= i < |parts| && parts[i] == p && q !in parts[..i + 1]
  }

  predicate InOrder(parts: seq<string>, d: seq<string>) {
    forall i, j :: 0 <= i < j < |d| ==> FirstBefore(parts, d[i], d[j])
  }

  lemma FirstBeforeGrows(init: seq<string>, last: string, p: string, q: string)
    requires FirstBefore(init, p, q)
    ensures FirstBefore(init + [last], p, q)
  {
    var i :| 0 <= i < |init| && init[i] == p && q !in init[..i + 1];
    assert (init + [last])[..i + 1] == init[..i + 1];
  }

  lemma FirstBeforeNew(init: seq<string>, last: string, p: string)
    requires p in init && last !in init
    ensures FirstBefore(init + [last], p, last)
  {
    var i :| 0 <= i < |init| && init[i] == p;
    assert (init + [last])[..i + 1] == init[..i + 1];
  }

  /** The accepted list has no duplicates, has exactly the parts for members, and keeps the order in which
      they first occur. */
  lemma {:induction false} DistinctKeepsOrder(parts: seq<string>)
    ensures NoDuplicates(Distinct(parts))
    ensures forall p :: p in Distinct(parts) <==> p in parts
    ensures InOrder(parts, Distinct(parts))
  {
    if parts != [] {
      var init, last := parts[..|parts| - 1], parts[|parts| - 1];
      assert parts == init + [last];
      DistinctKeepsOrder(init);
      var d := Distinct(init);
      assert Distinct(parts) == if last in init then d else d + [last];
      hide FirstBefore, Distinct;
      forall i, j | 0 <= i < j < |Distinct(parts)|
        ensures FirstBefore(parts, Distinct(parts)[i], Distinct(parts)[j])
      {
        if j < |d| {
          FirstBeforeGrows(init, last, d[i], d[j]);
        } else {
          assert d[i] in init;
          FirstBeforeNew(init, last, d[i]);
        }
      }
    }
  }

  lemma {:induction false} DistinctFixed(s: seq<string>)
    requires NoDuplicates(s)
    ensures Distinct(s) == s
  {
    if s != [] {
      DistinctFixed(s[..|s| - 1]);
    }
  }

  /* ---------- printing a list and parsing it again ---------- */

  predicate NoComma(s: string) {
    forall i :: 0 <= i < |s| ==> s[i] != ','
  }

  lemma FirstComma(a: string, b: string)
    requires NoComma(a)
    ensures IndexOf(a + "," + b, ",") == Some(|a|)
  {
    var s := a + "," + b;
    assert OccursAt(s, ",", |a|);
    assert forall j :: 0 <= j < |a| ==> !OccursAt(s, ",", j) by {
      forall j | 0 <= j < |a| ensures !OccursAt(s, ",", j) {
        assert s[j..j + 1][0] == a[j];
      }
    }
  }

  lemma NoCommaFound(a: string)
    requires NoComma(a)
    ensures IndexOf(a, ",").None?
  {
    forall j | 0 <= j <= |a| ensures !OccursAt(a, ",", j) {
      if j < |a| { assert a[j..j + 1][0] == a[j]; }
    }
  }

  lemma CommaFound(a: string)
    ensures IndexOf(a, ",").None? ==> NoComma(a)
    ensures IndexOf(a, ",").Some? ==> NoComma(a[..IndexOf(a, ",").value])
  {
    forall j | 0 <= j < |a| && a[j] == ','
      ensures OccursAt(a, ",", j)
    {
      assert a[j..j + 1] == ",";
    }
  }

  lemma {:induction false} SplitParts(s: string)
    ensures forall i :: 0 <= i < |Split(s, ",")| ==> NoComma(Split(s, ",")[i])
    decreases |s|
  {
    hide IndexOf;
    CommaFound(s);
    match IndexOf(s, ",")
    case None =>
    case Some(i) => SplitParts(s[i + 1..]);
  }

  /** Parts without a comma survive joining and splitting. */
  lemma {:induction false} SplitOfJoin(parts: seq<string>)
    requires parts != [] && forall i :: 0 <= i < |parts| ==> NoComma(parts[i])
    ensures Split(Join(parts, ","), ",") == parts
  {
    hide IndexOf;
    if |parts| == 1 {
      NoCommaFound(parts[0]);
    } else {
      var rest := Join(parts[1..], ",");
      FirstComma(parts[0], rest);
      SplitOfJoin(parts[1..]);
      var s := parts[0] + "," + rest;
      assert s[..|parts[0]|] == parts[0] && s[|parts[0]| + 1..] == rest;
    }
  }

  lemma {:induction false} TrimLeftIsInfix(s: string)
    requires NoComma(s)
    ensures NoComma(TrimLeft(s))
  {
    if s != [] && IsSpace(s[0]) { TrimLeftIsInfix(s[1..]); }
  }

  lemma {:induction false} TrimRightIsInfix(s: string)
    requires NoComma(s)
    ensures NoComma(TrimRight(s))
  {
    if s != [] && IsSpace(s[|s| - 1]) { TrimRightIsInfix(s[..|s| - 1]); }
  }

  lemma TrimmedPartsAreClean(value: string)
    ensures forall p :: p in TrimmedParts(value) ==> NoComma(p) && TrimSpace(p) == p
  {
    SplitParts(value);
    var raw := Split(value, ",");
    forall i | 0 <= i < |raw|
      ensures NoComma(TrimSpace(raw[i])) && TrimSpace(TrimSpace(raw[i])) == TrimSpace(raw[i])
    {
      TrimLeftIsInfix(raw[i]);
      TrimRightIsInfix(TrimLeft(raw[i]));
      TrimSpaceIsTrimmed(raw[i]);
      TrimSpaceIsTrimmed(TrimSpace(raw[i]));
    }
  }

  lemma TrimmedPartsOfJoin(parts: seq<string>)
    requires parts != [] && forall p :: p in parts ==> NoComma(p) && TrimSpace(p) == p
    ensures TrimmedParts(Join(parts, ",")) == parts
  {
    hide TrimSpace, Join, NoComma, Split;
    SplitOfJoin(parts);
  }

  /** A string with a comma in it, or one that starts with a visible character, is not blank. */
  lemma JoinIsNotBlank(parts: seq<string>)
    requires parts != [] && parts[0] != "" && TrimSpace(parts[0]) == parts[0]
    ensures TrimSpace(Join(parts, ",")) != ""
  {
    TrimSpaceIsTrimmed(parts[0]);
    var s := Join(parts, ",");
    assert s[0] == parts[0][0] && !IsSpace(s[0]);
    TrimRightKeepsHead(s);
  }

  /** The list the server hands to its CORS handler: an accepted list joined by commas is accepted again,
      and gives the same list. */
  lemma JoinThenParse(parse: string -> Option<Url>, value: string, requireHttps: bool, origins: seq<string>,
                      again: Parsed)
    requires Means(parse, value, requireHttps, Accepted(origins))
    requires Means(parse, Join(origins, ","), requireHttps, again)
    ensures again == Accepted(origins)
  {
    AcceptedOrigins(parse, value, requireHttps, origins);
    hide PartFault, Distinct, TrimSpace, Join, NoComma, TrimmedParts;
    TrimmedPartsOfJoin(origins);
    JoinIsNotBlank(origins);
    DistinctFixed(origins);
  }

  lemma AcceptedOrigins(parse: string -> Option<Url>, value: string, requireHttps: bool, origins: seq<string>)
    requires Means(parse, value, requireHttps, Accepted(origins))
    ensures origins != [] && origins[0] != "" && NoDuplicates(origins) && AllFine(parse, requireHttps, origins)
    ensures forall p :: p in origins ==> NoComma(p) && TrimSpace(p) == p
  {
    hide TrimSpace, NoComma, TrimmedParts, IsOrigin, Contains;
    var parts := TrimmedParts(value);
    TrimmedPartsAreClean(value);
    DistinctKeepsOrder(parts);
    assert parts[0] in parts;
    forall i | 0 <= i < |origins|
      ensures PartFault(parse, requireHttps, origins[i]).None?
    {
      assert origins[i] in parts;
      var k :| 0 <= k < |parts| && parts[k] == origins[i];
    }
    assert PartFault(parse, requireHttps, origins[0]).None?;
  }

  /* ---------- the account configuration ---------- */

  datatype Config = Configured(allowed: seq<string>, cors: seq<string>)
                  | InvalidCors(fault: Fault) | InvalidAccount(fault: Fault) | EmptyAccount | NotGlobal(origin: string)

  /** What the two parsed lists make of the configuration: it succeeds if and only if both are accepted and
      the account list is part of the CORS list; otherwise it says which list is at fault, or names an
      account origin that is no CORS origin. */
  ghost predicate ConfigOf(cors: Parsed, account: Parsed, config: Config) {
    if cors.Refused? then config == InvalidCors(cors.fault)
    else if account.Refused? then config == InvalidAccount(account.fault)
    else if forall p :: p in account.origins ==> p in cors.origins then
      config == Configured(account.origins, cors.origins)
    else
      exists i :: 0 <= i < |account.origins|
                  && config == NotGlobal(account.origins[i]) && account.origins[i] !in cors.origins
                  && forall p :: p in account.origins[..i] ==> p in cors.origins
  }

  /** The configuration's answer: the first account origin that is no CORS origin is named. */
  lemma ConfigAnswer(cors: Parsed, account: Parsed, config: Config)
    requires ConfigOf(cors, account, config)
    ensures config.Configured? <==>
      && cors.Accepted? && account.Accepted?
      && forall i :: 0 <= i < |account.origins| ==> account.origins[i] in cors.origins
    ensures config.Configured? ==> config.allowed == account.origins && config.cors == cors.origins
    ensures cors.Refused? ==> config == InvalidCors(cors.fault)
    ensures cors.Accepted? && account.Refused? ==> config == InvalidAccount(account.fault)
    ensures cors.Accepted? && account.Accepted? && !config.Configured? ==>
      exists i :: 0 <= i < |account.origins| && config == NotGlobal(account.origins[i])
                  && account.origins[i] !in cors.origins
  {}

  /** A value parses in one way only. */
  lemma MeansIsUnique(parse: string -> Option<Url>, value: string, requireHttps: bool, a: Parsed, b: Parsed)
    requires Means(parse, value, requireHttps, a) && Means(parse, value, requireHttps, b)
    ensures a == b
  {
    hide PartFault, TrimmedParts, TrimSpace, Distinct;
    var parts := TrimmedParts(value);
    if TrimSpace(value) != "" && !AllFine(parse, requireHttps, parts) {
      var i :| 0 <= i < |parts| && AllFine(parse, requireHttps, parts[..i])
        && PartFault(parse, requireHttps, parts[i]).Some?
        && a == Refused(PartFault(parse, requireHttps, parts[i]).value);
      var j :| 0 <= j < |parts| && AllFine(parse, requireHttps, parts[..j])
        && PartFault(parse, requireHttps, parts[j]).Some?
        && b == Refused(PartFault(parse, requireHttps, parts[j]).value);
      FirstFaultIsUnique(parse, requireHttps, parts, i, j);
      FirstFaultIsUnique(parse, requireHttps, parts, j, i);
    }
  }

  lemma FirstFaultIsUnique(parse: string -> Option<Url>, requireHttps: bool, parts: seq<string>, i: nat, j: nat)
    requires i < |parts| && PartFault(parse, requireHttps, parts[i]).Some?
    requires j < |parts| && AllFine(parse, requireHttps, parts[..j])
    ensures i >= j
  {
    hide PartFault;
    assert forall k :: 0 <= k < j ==> parts[..j][k] == parts[k];
  }

  lemma LoadedOnce(parse: string -> Option<Url>, value: string, requireHttps: bool)
    ensures forall a, b :: Means(parse, value, requireHttps, a) && Means(parse, value, requireHttps, b) ==> a == b
  {
    forall a, b | Means(parse, value, requireHttps, a) && Means(parse, value, requireHttps, b) ensures a == b {
      MeansIsUnique(parse, value, requireHttps, a, b);
    }
  }

  /** The two lists of a deployment with the account module enabled. */
  method LoadOrigins(parse: string -> Option<Url>, allowedValue: string, accountValue: string, development: bool)
    returns (config: Config)
    ensures forall cors, account ::
      Means(parse, allowedValue, !development, cors) && Means(parse, accountValue, !development, account)
      ==> ConfigOf(cors, account, config)
  {
    hide Means;
    LoadedOnce(parse, allowedValue, !development);
    LoadedOnce(parse, accountValue, !development);
    var corsResult := ParseOrigins(parse, allowedValue, !development);
    var accountResult := ParseOrigins(parse, accountValue, !development);
    if corsResult.Refused? {
      return InvalidCors(corsResult.fault);
    }
    if accountResult.Refused? {
      return InvalidAccount(accountResult.fault);
    }
    if |accountResult.origins| == 0 {
      AcceptedOrigins(parse, accountValue, !development, accountResult.origins);
      return EmptyAccount;
    }
    var global: set<string> := {};
    for i := 0 to |corsResult.origins|
      invariant forall p :: p in global <==> p in corsResult.origins[..i]
    {
      global := global + {corsResult.origins[i]};
    }
    assert corsResult.origins[..|corsResult.origins|] == corsResult.origins;
    for i := 0 to |accountResult.origins|
      invariant forall p :: p in accountResult.origins[..i] ==> p in corsResult.origins
    {
      if accountResult.origins[i] !in global {
        assert accountResult.origins[i] !in corsResult.origins;
        return NotGlobal(accountResult.origins[i]);
      }
    }
    assert accountResult.origins[..|accountResult.origins|] == accountResult.origins;
    config := Configured(accountResult.origins, corsResult.origins);
  }

  /* ---------- the origins a development server adds ---------- */

  const LOCAL := "http://localhost:300"
  const DEVELOPMENT := [LOCAL + "2", LOCAL + "1", LOCAL + "0"]

  /** The three origins, in full. */
  lemma DevelopmentIs()
    ensures LOCAL + "2" == "http://localhost:3002" && |DEVELOPMENT| == 3
    ensures DEVELOPMENT[0] == "http://localhost:3002" && DEVELOPMENT[1] == "http://localhost:3001"
    ensures DEVELOPMENT[2] == "http://localhost:3000"
  {}

  /** The value the server hands to its CORS handler. */
  function AllowOrigins(origins: seq<string>, production: bool): string {
    var joined := Join(origins, ",");
    if !production && !Contains(joined, LOCAL + "2")
    then joined + "," + (LOCAL + "2" + "," + (LOCAL + "1" + "," + (LOCAL + "0")))
    else joined
  }

  lemma {:induction false} JoinAppend(a: seq<string>, b: seq<string>)
    requires a != [] && b != []
    ensures Join(a + b, ",") == Join(a, ",") + "," + Join(b, ",")
  {
    if |a| == 1 {
      assert (a + b)[1..] == b;
    } else {
      JoinAppend(a[1..], b);
      assert (a + b)[1..] == a[1..] + b;
    }
  }

  lemma JoinThree(a: string, b: string, c: string)
    ensures Join([a, b, c], ",") == a + "," + (b + "," + c)
  {
    assert [a, b, c][1..] == [b, c] && [b, c][1..] == [c];
    assert Join([b, c], ",") == b + "," + Join([c], ",") == b + "," + c;
  }

  /** The guard of the appending branch. */
  predicate KeepsList(origins: seq<string>, production: bool) {
    production || Contains(Join(origins, ","), LOCAL + "2")
  }

  lemma AllowOriginsJoins(origins: seq<string>, production: bool)
    requires origins != []
    ensures AllowOrigins(origins, production) ==
      Join(if KeepsList(origins, production) then origins else origins + DEVELOPMENT, ",")
  {
    hide Contains, Join, LOCAL;
    JoinThree(LOCAL + "2", LOCAL + "1", LOCAL + "0");
    JoinAppend(origins, DEVELOPMENT);
  }

  lemma LocalIsClean(port: string)
    requires |port| == 1 && port[0] != ',' && !IsSpace(port[0])
    ensures NoComma(LOCAL + port) && TrimSpace(LOCAL + port) == LOCAL + port
  {
    hide TrimSpace;
    assert NoComma(LOCAL);
    TrimSpaceIsTrimmed(LOCAL + port);
  }

  lemma DevelopmentIsClean()
    ensures forall p :: p in DEVELOPMENT ==> NoComma(p) && TrimSpace(p) == p
  {
    hide NoComma, TrimSpace;
    LocalIsClean("2");
    LocalIsClean("1");
    LocalIsClean("0");
  }

  lemma {:induction false} DistinctPrefix(a: seq<string>, b: seq<string>)
    ensures Distinct(a) <= Distinct(a + b)
    decreases |b|
  {
    if b == [] {
      assert a + b == a;
    } else {
      assert (a + b)[..|a + b| - 1] == a + b[..|b| - 1];
      DistinctPrefix(a, b[..|b| - 1]);
    }
  }

  lemma FineTogether(parse: string -> Option<Url>, a: seq<string>, b: seq<string>)
    requires AllFine(parse, false, a) && AllFine(parse, false, b)
    ensures AllFine(parse, false, a + b)
  {
    hide PartFault;
  }

  /** A list of fine, clean parts that begins with `origins` parses to a list that begins with them. */
  lemma ListParses(parse: string -> Option<Url>, origins: seq<string>, more: seq<string>, again: Parsed)
    requires origins != [] && origins[0] != "" && NoDuplicates(origins)
    requires AllFine(parse, false, origins + more)
    requires forall p :: p in origins + more ==> NoComma(p) && TrimSpace(p) == p
    requires Means(parse, Join(origins + more, ","), false, again)
    ensures again == Accepted(Distinct(origins + more)) && origins <= Distinct(origins + more)
    ensures forall p :: p in Distinct(origins + more) <==> p in origins || p in more
  {
    hide AllFine, Distinct, TrimSpace, Join, NoComma, TrimmedParts;
    TrimmedPartsOfJoin(origins + more);
    JoinIsNotBlank(origins + more);
    DistinctKeepsOrder(origins + more);
    DistinctFixed(origins);
    DistinctPrefix(origins, more);
  }

  lemma HttpsIsFine(parse: string -> Option<Url>, requireHttps: bool, parts: seq<string>)
    requires AllFine(parse, requireHttps, parts)
    ensures AllFine(parse, false, parts)
  {
    hide IsOrigin, Contains;
    forall i | 0 <= i < |parts| ensures PartFault(parse, false, parts[i]).None? {
      assert PartFault(parse, requireHttps, parts[i]).None?;
    }
  }

  /** Text around an occurrence does not hide it. */
  lemma OccursInside(before: string, p: string, after: string)
    ensures Contains(before + p + after, p)
  {
    hide IndexOf;
    var s := before + p + after;
    assert OccursAt(s, p, |before|);
  }

  lemma {:induction false} PartInJoin(parts: seq<string>, i: nat) returns (before: string, after: string)
    requires i < |parts|
    ensures Join(parts, ",") == before + parts[i] + after
    decreases i
  {
    if i == 0 {
      before, after := "", if |parts| == 1 then "" else "," + Join(parts[1..], ",");
    } else {
      before, after := PartInJoin(parts[1..], i - 1);
      assert parts[0] + "," + (before + parts[i] + after) == parts[0] + "," + before + parts[i] + after;
      before := parts[0] + "," + before;
    }
  }

  lemma PartOccursInJoin(parts: seq<string>, p: string)
    requires p in parts
    ensures Contains(Join(parts, ","), p)
  {
    hide Join, Contains;
    var i :| 0 <= i < |parts| && parts[i] == p;
    var before, after := PartInJoin(parts, i);
    OccursInside(before, p, after);
  }

  /** Parsed again, the value that goes to CORS is the configured list exactly in production, or when that
      list mentions the first local origin already. Otherwise the three local origins, which are plain http,
      follow it, even where the configuration demanded https of every origin. */
  lemma AllowedListParses(parse: string -> Option<Url>, value: string, requireHttps: bool, origins: seq<string>,
                          production: bool, again: Parsed)
    requires Means(parse, value, requireHttps, Accepted(origins)) && AllFine(parse, false, DEVELOPMENT)
    requires Means(parse, AllowOrigins(origins, production), false, again)
    ensures again == Accepted(origins) <==> KeepsList(origins, production)
    ensures !KeepsList(origins, production) ==> again == Accepted(Distinct(origins + DEVELOPMENT))
    ensures again.Accepted? && origins <= again.origins
    ensures forall p :: p in again.origins <==> p in origins || (!KeepsList(origins, production) && p in DEVELOPMENT)
  {
    AcceptedOrigins(parse, value, requireHttps, origins);
    HttpsIsFine(parse, requireHttps, origins);
    AllowOriginsJoins(origins, production);
    DevelopmentIsClean();
    if LOCAL + "2" in origins { PartOccursInJoin(origins, LOCAL + "2"); }
    assert DEVELOPMENT[0] == LOCAL + "2";
    assert LOCAL + "2" in origins ==> KeepsList(origins, production);
    hide *;
    var more := if KeepsList(origins, production) then [] else DEVELOPMENT;
    assert origins + [] == origins;
    FineTogether(parse, origins, DEVELOPMENT);
    ListParses(parse, origins, more, again);
    DistinctFixed(origins);
  }

  lemma NotFound(s: string, c: char)
    requires c !in s
    ensures !Contains(s, [c])
  {
    forall j | 0 <= j <= |s| ensures !OccursAt(s, [c], j) {
      if j < |s| { assert s[j..j + 1][0] == s[j]; }
    }
  }

  const SITE := "https://wat.example"

  /** A single clean, fine part is accepted. */
  lemma OnePart(parse: string -> Option<Url>, requireHttps: bool, part: string)
    requires part != "" && NoComma(part) && TrimSpace(part) == part && PartFault(parse, requireHttps, part).None?
    ensures Means(parse, part, requireHttps, Accepted([part])) && Join([part], ",") == part
  {
    OneIsFine(parse, requireHttps, part);
    OneJoined(part);
    hide *;
    NoCommaFound(part);
    OnePartTrimmed(part);
    OneIsDistinct(part);
    OneMeans(parse, requireHttps, part);
  }

  lemma OneIsFine(parse: string -> Option<Url>, requireHttps: bool, part: string)
    requires PartFault(parse, requireHttps, part).None?
    ensures AllFine(parse, requireHttps, [part])
  {
    hide PartFault;
  }

  lemma OneJoined(part: string)
    ensures Join([part], ",") == part
  {}

  lemma OneIsDistinct(part: string)
    ensures Distinct([part]) == [part]
  {
    assert [part][..0] == [];
  }

  lemma OneMeans(parse: string -> Option<Url>, requireHttps: bool, part: string)
    requires TrimSpace(part) != "" && TrimmedParts(part) == [part]
    requires AllFine(parse, requireHttps, [part]) && Distinct([part]) == [part]
    ensures Means(parse, part, requireHttps, Accepted([part]))
  {
    hide TrimSpace, AllFine, TrimmedParts, Distinct;
  }

  lemma OnePartTrimmed(part: string)
    requires IndexOf(part, ",").None? && TrimSpace(part) == part
    ensures TrimmedParts(part) == [part]
  {
    hide TrimSpace, IndexOf;
    assert Split(part, ",") == [part];
  }

  lemma SiteIsClean()
    ensures SITE != "" && NoComma(SITE) && '*' !in SITE && TrimSpace(SITE) == SITE && |SITE| < |LOCAL + "2"|
  {
    TrimSpaceIsTrimmed(SITE);
    hide TrimSpace;
  }

  lemma SiteIsAccepted(parse: string -> Option<Url>)
    requires parse(SITE) == Some(Url("https", "wat.example", "", "", ""))
    ensures Means(parse, SITE, true, Accepted([SITE])) && !KeepsList([SITE], false)
  {
    SiteIsClean();
    NotFound(SITE, '*');
    TooShort(SITE, LOCAL + "2");
    hide TrimSpace, Contains, NoComma, Means, SITE, LOCAL;
    OnePart(parse, true, SITE);
  }

  lemma TooShort(s: string, sub: string)
    requires |s| < |sub|
    ensures !Contains(s, sub)
  {}

  /** It happens: on a staging server with an https-only list the CORS handler gets a plain-http origin that
      the configuration would have refused. */
  lemma LocalOriginsOnStaging(parse: string -> Option<Url>, again: Parsed)
    requires parse(SITE) == Some(Url("https", "wat.example", "", "", ""))
    requires parse(LOCAL + "2").Some? && parse(LOCAL + "2").value.scheme == "http"
    requires AllFine(parse, false, DEVELOPMENT) && Means(parse, AllowOrigins([SITE], false), false, again)
    ensures Means(parse, SITE, true, Accepted([SITE]))
    ensures again.Accepted? && LOCAL + "2" in again.origins && PartFault(parse, true, LOCAL + "2").Some?
  {
    LocalIsNotHttps(parse, LOCAL + "2");
    assert LOCAL + "2" in DEVELOPMENT by { assert DEVELOPMENT[0] == LOCAL + "2"; }
    hide *;
    SiteIsAccepted(parse);
    AllowedListParses(parse, SITE, true, [SITE], false, again);
  }

  lemma LocalIsNotHttps(parse: string -> Option<Url>, part: string)
    requires parse(part).Some? && parse(part).value.scheme == "http"
    ensures PartFault(parse, true, part).Some?
  {
    hide Contains, IsOrigin;
  }
}
