/** The rule lookup of the Android plugin: rules embedded in the page win; otherwise a list of
    candidate names derived from the host is tried against the rule hub, in order. The HTTP
    fetch is a parameter (`fetch(url)`, "" when the request fails), and so is the
    `StringUtils.isNotBlank` test (`notBlank`). */
module TVLikeDsl {
  import opened Wrappers
  import opened JavaString
  import LegacyParser
  import Patterns

  /** The hub used when none (or a blank one) is configured. */
  const DefaultHub: string := "https://hub.tvai.tv/"

  // ---------------------------------------------------------------------------------------
  // Host to hub path
  // ---------------------------------------------------------------------------------------

  /** The parts in the opposite order. */
  function Reversed(parts: seq<string>): (r: seq<string>)
    ensures |r| == |parts|
    ensures forall k :: 0 <= k < |r| ==> r[k] == parts[|parts| - 1 - k]
  {
    if parts == [] then [] else Reversed(parts[1..]) + [parts[0]]
  }

  /** The dot-separated labels of a host: the text before the first `:` (the port is dropped),
      trimmed, split on `.`. A host made only of colons leaves `split(":")` with no piece, and
      reading its first piece throws. */
  function HostLabels(host: string): (r: Try<seq<string>>)
  {
    var pieces := Split(host, ':');
    if pieces == [] then Throws(ArrayIndexOutOfBounds) else Ok(Split(Trim(pieces[0]), '.'))
  }

  /** `domainToDslPath`: null for a null or empty host; a single label as it is; otherwise the
      labels in reverse order joined by `/`. */
  function DslPath(host: Option<string>): (r: Try<Option<string>>)
    ensures host.None? || host == Some("") ==> r == Ok(None)
    ensures r.Ok? && r.value.None? ==> host.None? || host == Some("")
  {
    if host.None? || host.value == [] then Ok(None)
    else
      var parts :- HostLabels(host.value);
      if |parts| == 1 then Ok(Some(parts[0])) else Ok(Some(Join(Reversed(parts), "/")))
  }

  /** What the reverse loop has appended once it has handled the labels after index `i`:
      those labels, last first, each followed by `/` unless it is label 0. */
  ghost function Emitted(parts: seq<string>, i: int): string
    requires -1 <= i < |parts|
  {
    if i == |parts| - 1 then ""
    else Join(Reversed(parts[i + 1..]), "/") + (if i >= 0 then "/" else "")
  }

  /** `domainToDslPath`, with the StringBuilder loop from the last label down to the first. */
  method DomainToDslPath(host: Option<string>) returns (r: Try<Option<string>>)
    ensures r == DslPath(host)
  {
    if host.None? || host.value == [] {
      return Ok(None);
    }
    var pieces := Split(host.value, ':');
    if pieces == [] {
      return Throws(ArrayIndexOutOfBounds);
    }
    var parts := Split(Trim(pieces[0]), '.');
    if |parts| == 1 {
      return Ok(Some(parts[0]));
    }
    var sb := "";
    var i := |parts| - 1;
    while i >= 0
      invariant -1 <= i < |parts|
      invariant sb == Emitted(parts, i)
      decreases i
    {
      EmittedStep(parts, i);
      sb := sb + parts[i];
      if i != 0 {
        sb := sb + "/";
      }
      i := i - 1;
    }
    assert parts[0..] == parts;
    assert sb == Join(Reversed(parts), "/");
    return Ok(Some(sb));
  }

  /** One turn of the reverse loop: label `i`, then `/` unless it is label 0. */
  lemma EmittedStep(parts: seq<string>, i: int)
    requires 0 <= i < |parts|
    ensures Emitted(parts, i - 1) == Emitted(parts, i) + parts[i] + (if i != 0 then "/" else "")
  {
    var tail := parts[i..];
    assert tail[1..] == parts[i + 1..];
    assert Reversed(tail) == Reversed(parts[i + 1..]) + [parts[i]];
    if i < |parts| - 1 {
      JoinSnoc(Reversed(parts[i + 1..]), parts[i], "/");
    }
  }

  /** `split` keeps its first piece when that piece is not empty. */
  lemma {:induction false} DropTrailingEmptyKeepsFirst(parts: seq<string>)
    requires |parts| >= 1 && parts[0] != []
    ensures |DropTrailingEmpty(parts)| >= 1 && DropTrailingEmpty(parts)[0] == parts[0]
    decreases |parts|
  {
    if parts[|parts| - 1] == [] {
      assert |parts| > 1;
      var front := parts[..|parts| - 1];
      DropTrailingEmptyKeepsFirst(front);
    }
  }

  /** A `:port` suffix changes nothing: the path of `host:port` is that of `host`. */
  lemma PortIgnored(host: string, port: string)
    requires host != [] && ':' !in host
    ensures DslPath(Some(host + ":" + port)) == DslPath(Some(host))
  {
    var s := host + ":" + port;
    IndexOfAfter(host, ':', port);
    assert s[..|host|] == host;
    assert ':' in s by { assert s[|host|] == ':'; }
    var all := SplitAll(s, ':');
    assert all[0] == host;
    DropTrailingEmptyKeepsFirst(all);
  }

  /** A host with a single label (and no port) gives that label, trimmed. */
  lemma SingleLabel(host: string)
    requires host != [] && ':' !in host && '.' !in Trim(host)
    ensures DslPath(Some(host)) == Ok(Some(Trim(host)))
  {
  }

  /** The path is the labels in reverse order: splitting it on `/` gives them back, last label
      first, when no label holds a `/`. Hence no leading or trailing `/` is added. */
  lemma PathIsReversedLabels(host: string)
    requires host != [] && HostLabels(host).Ok?
    requires |HostLabels(host).value| >= 1
    requires forall k :: 0 <= k < |HostLabels(host).value| ==> '/' !in HostLabels(host).value[k]
    ensures DslPath(Some(host)).Ok? && DslPath(Some(host)).value.Some?
    ensures SplitAll(DslPath(Some(host)).value.value, '/') == Reversed(HostLabels(host).value)
  {
    var parts := HostLabels(host).value;
    var rev := Reversed(parts);
    SplitAllJoin(rev, '/');
    if |parts| == 1 {
      assert rev == parts;
    }
  }

  /** A separator that neither the parts nor the separator string hold is not in the join. */
  lemma {:induction false} JoinWithout(parts: seq<string>, sep: string, c: char)
    requires c !in sep && forall k :: 0 <= k < |parts| ==> c !in parts[k]
    ensures c !in Join(parts, sep)
    decreases |parts|
  {
    if |parts| > 1 {
      JoinWithout(parts[1..], sep, c);
    }
  }

  /** Labels joined by `.` (without port and outer spaces) are read back as they are. */
  lemma HostLabelsOfJoin(parts: seq<string>)
    requires |parts| >= 1 && parts[|parts| - 1] != []
    requires forall k :: 0 <= k < |parts| ==> '.' !in parts[k] && ':' !in parts[k]
    requires var host := Join(parts, "."); host != [] && !IsTrimSpace(host[0]) && !IsTrimSpace(host[|host| - 1])
    ensures HostLabels(Join(parts, ".")) == Ok(parts)
  {
    var host := Join(parts, ".");
    JoinWithout(parts, ".", ':');
    TrimOfTrimmed(host);
    SplitAllJoin(parts, '.');
    if |parts| >= 2 {
      JoinAt(parts, ".");
      assert host[|parts[0]|] == '.';
    }
  }

  /** The path of a host with several labels, once its labels are known. */
  lemma PathOfLabels(host: string, parts: seq<string>)
    requires host != [] && HostLabels(host) == Ok(parts) && |parts| != 1
    ensures DslPath(Some(host)) == Ok(Some(Join(Reversed(parts), "/")))
  {
  }

  /** Three labels come out last first, as in the source's example where `m.douban.com`
      becomes `com/douban/m`. */
  lemma ThreeLabels(a: string, b: string, c: string)
    requires a != [] && b != [] && c != []
    requires '.' !in a && '.' !in b && '.' !in c && ':' !in a && ':' !in b && ':' !in c
    requires !IsTrimSpace(a[0]) && !IsTrimSpace(c[|c| - 1])
    ensures DslPath(Some(a + "." + b + "." + c)) == Ok(Some(c + "/" + b + "/" + a))
  {
    var host := a + "." + b + "." + c;
    ThreeLabelsRead(a, b, c);
    PathOfLabels(host, [a, b, c]);
    assert Reversed([a, b, c]) == [c, b, a];
    JoinThree(c, b, a, "/");
  }

  /** The labels of a three-label host are read back in order. */
  lemma ThreeLabelsRead(a: string, b: string, c: string)
    requires a != [] && b != [] && c != []
    requires '.' !in a && '.' !in b && '.' !in c && ':' !in a && ':' !in b && ':' !in c
    requires !IsTrimSpace(a[0]) && !IsTrimSpace(c[|c| - 1])
    ensures HostLabels(a + "." + b + "." + c) == Ok([a, b, c])
  {
    var parts := [a, b, c];
    var host := a + "." + b + "." + c;
    JoinThree(a, b, c, ".");
    assert host[0] == a[0] && host[|host| - 1] == c[|c| - 1];
    HostLabelsOfJoin(parts);
  }

  /** Three parts joined: the separator between each two. */
  lemma JoinThree(x: string, y: string, z: string, sep: string)
    ensures Join([x, y, z], sep) == x + sep + y + sep + z
  {
    JoinAt([x, y, z], sep);
    assert [x, y, z][1..] == [y, z];
    JoinAt([y, z], sep);
    assert [y, z][1..] == [z];
  }

  /** A host made only of a colon has no first piece to read. */
  lemma LoneColonThrows()
    ensures DslPath(Some(":")) == Throws(ArrayIndexOutOfBounds)
  {
    IndexOfAfter("", ':', "");
    assert SplitAll(":", ':') == ["", ""] by {
      assert (":")[1..] == "";
    }
  }

  // ---------------------------------------------------------------------------------------
  // The candidate list
  // ---------------------------------------------------------------------------------------

  /** The candidates of `getHubDsl`, in order: the host; the host without `www.` when it starts
      with it; the hub path; the hub path without `/www` when it ends with it. A null host, or
      an empty one (whose hub path is null), throws when `startsWith`/`endsWith` is called. */
  function Candidates(host: Option<string>): (r: Try<seq<string>>)
    ensures r.Ok? ==> host.Some? && 2 <= |r.value| <= 4 && r.value[0] == host.value
  {
    if host.None? then Throws(NullPointer)
    else
      var path :- DslPath(host);
      if path.None? then Throws(NullPointer)
      else Ok(WithoutPrefix(host.value) + WithoutSuffix(path.value))
  }

  /** A name, then the name without `www.` when it starts with it. */
  function WithoutPrefix(h: string): (r: seq<string>)
    ensures 1 <= |r| <= 2 && r[0] == h
    ensures |r| == 2 <==> StartsWith(h, "www.")
    ensures |r| == 2 ==> "www." + r[1] == h
  {
    if StartsWith(h, "www.") then [h, h[4..]] else [h]
  }

  /** A path, then the path without `/www` when it ends with it. */
  function WithoutSuffix(p: string): (r: seq<string>)
    ensures 1 <= |r| <= 2 && r[0] == p
    ensures |r| == 2 <==> EndsWith(p, "/www")
    ensures |r| == 2 ==> r[1] + "/www" == p
  {
    if EndsWith(p, "/www") then [p, p[..|p| - 4]] else [p]
  }

  /** `getHubDsl` up to the fetch: the candidate list, built one entry at a time. */
  method HubCandidates(host: Option<string>) returns (r: Try<seq<string>>)
    ensures r == Candidates(host)
  {
    if host.None? {
      return Throws(NullPointer);
    }
    var h := host.value;
    var list := [h];
    if StartsWith(h, "www.") {
      list := list + [h[4..]];
    }
    assert list == WithoutPrefix(h);
    var domainPath := DomainToDslPath(host);
    if domainPath.Throws? {
      return Throws(domainPath.exception);
    }
    if domainPath.value.None? {
      return Throws(NullPointer);
    }
    var p := domainPath.value.value;
    list := list + [p];
    if EndsWith(p, "/www") {
      list := list + [p[..|p| - 4]];
    }
    assert list == WithoutPrefix(h) + WithoutSuffix(p);
    return Ok(list);
  }

  /** Every candidate but the host is derived from it: the `www.`-less host comes right after
      it exactly when the host starts with `www.`, and the hub path follows. */
  lemma CandidatesOrder(h: string)
    requires h != [] && DslPath(Some(h)).Ok?
    ensures Candidates(Some(h)).Ok?
    ensures var c := Candidates(Some(h)).value;
            var p := DslPath(Some(h)).value.value;
            var at := if StartsWith(h, "www.") then 2 else 1;
            (StartsWith(h, "www.") ==> c[1] == h[4..]) &&
            c[at] == p &&
            |c| == at + 1 + (if EndsWith(p, "/www") then 1 else 0) &&
            (EndsWith(p, "/www") ==> c[at + 1] + "/www" == p)
  {
    var p := DslPath(Some(h)).value.value;
    if EndsWith(p, "/www") {
      assert p[..|p| - 4] + "/www" == p;
    }
  }

  /** An empty host has no hub path, so building the list throws. */
  lemma EmptyHostThrows()
    ensures Candidates(Some("")) == Throws(NullPointer)
  {
  }

  // ---------------------------------------------------------------------------------------
  // Hub, script and lookup
  // ---------------------------------------------------------------------------------------

  /** The hub a constructor argument gives: a non-blank one, with `/` added when it does not end
      with it; the default otherwise (a null one included). */
  function HubOf(dslHub: Option<string>, notBlank: string -> bool): (r: string)
    ensures dslHub.Some? && notBlank(dslHub.value) ==>
              EndsWith(r, "/") && StartsWith(r, dslHub.value) && |r| <= |dslHub.value| + 1
    ensures dslHub.Some? && notBlank(dslHub.value) && EndsWith(dslHub.value, "/") ==> r == dslHub.value
    ensures !(dslHub.Some? && notBlank(dslHub.value)) ==> r == DefaultHub
  {
    if dslHub.Some? && notBlank(dslHub.value) then
      var d := dslHub.value;
      if EndsWith(d, "/") then d else d + "/"
    else DefaultHub
  }

  /** The rule file a candidate is fetched from. */
  function RequestUrl(hub: string, candidate: string): string {
    hub + candidate + ".dsl"
  }

  /** The first non-blank answer of the hub, trying the candidates in order; null when every
      answer is blank. */
  function FirstFetched(hub: string, cands: seq<string>, fetch: string -> string,
                        notBlank: string -> bool): (r: Option<string>)
    ensures r.Some? ==> notBlank(r.value)
  {
    if cands == [] then None
    else
      var s := fetch(RequestUrl(hub, cands[0]));
      if notBlank(s) then Some(s) else FirstFetched(hub, cands[1..], fetch, notBlank)
  }

  /** The answer for candidate `k` is returned when it is the first non-blank one. */
  lemma {:induction false} FirstFetchedAt(hub: string, cands: seq<string>, fetch: string -> string,
                                          notBlank: string -> bool, k: nat)
    requires k < |cands| && notBlank(fetch(RequestUrl(hub, cands[k])))
    requires forall j :: 0 <= j < k ==> !notBlank(fetch(RequestUrl(hub, cands[j])))
    ensures FirstFetched(hub, cands, fetch, notBlank) == Some(fetch(RequestUrl(hub, cands[k])))
    decreases k
  {
    if k > 0 {
      assert !notBlank(fetch(RequestUrl(hub, cands[0])));
      forall j | 0 <= j < k - 1
        ensures !notBlank(fetch(RequestUrl(hub, cands[1..][j])))
      {
        assert cands[1..][j] == cands[j + 1];
      }
      FirstFetchedAt(hub, cands[1..], fetch, notBlank, k - 1);
    }
  }

  /** The lookup finds nothing exactly when every candidate's answer is blank. */
  lemma {:induction false} FirstFetchedNone(hub: string, cands: seq<string>, fetch: string -> string,
                                            notBlank: string -> bool)
    ensures FirstFetched(hub, cands, fetch, notBlank).None? <==>
            forall k :: 0 <= k < |cands| ==> !notBlank(fetch(RequestUrl(hub, cands[k])))
    decreases |cands|
  {
    if cands != [] {
      FirstFetchedNone(hub, cands[1..], fetch, notBlank);
      if FirstFetched(hub, cands, fetch, notBlank).None? {
        forall k | 0 <= k < |cands|
          ensures !notBlank(fetch(RequestUrl(hub, cands[k])))
        {
          if k > 0 {
            assert cands[1..][k - 1] == cands[k];
          }
        }
      } else if forall k :: 0 <= k < |cands| ==> !notBlank(fetch(RequestUrl(hub, cands[k]))) {
        assert !notBlank(fetch(RequestUrl(hub, cands[0])));
        forall j | 0 <= j < |cands| - 1
          ensures !notBlank(fetch(RequestUrl(hub, cands[1..][j])))
        {
          assert cands[1..][j] == cands[j + 1];
        }
      }
    }
  }

  /** `getHubDsl`: the first non-blank hub answer over the candidates, or null. */
  function HubDsl(hub: string, host: Option<string>, fetch: string -> string,
                  notBlank: string -> bool): Try<Option<string>>
  {
    var cands :- Candidates(host);
    Ok(FirstFetched(hub, cands, fetch, notBlank))
  }

  // The block-comment pattern `/\*.*?\*/` replaced by "" from `i`. `.` does not match a line
  // terminator, so a `/*` whose first `*/` comes after a line break is no comment and stays,
  // and the search goes on right after its `/`.
  function SameLineComments(s: string, i: nat): (r: string)
    requires i <= |s|
    decreases |s| - i
  {
    var o := Patterns.IndexOfPair(s, i, '/', '*');
    if o == |s| then s[i..]
    else
      var c := Patterns.IndexOfPair(s, o + 2, '*', '/');
      if c < |s| && c < TerminatorFrom(s, o + 2) then s[i..o] + SameLineComments(s, c + 2)
      else s[i..o + 1] + SameLineComments(s, o + 1)
  }

  /** `extractRulesFromScript`: "" without the script element, else its text normalised
      (`&#10;`, `&#13;`, CR LF) with the one-line block comments removed. */
  function ScriptRules(scriptHtml: Option<string>): string {
    match scriptHtml
    case None => ""
    case Some(h) => SameLineComments(LegacyParser.Normalised(h), 0)
  }

  /** A text without `/` has no comment to remove. */
  lemma SameLineCommentsNoSlash(s: string, i: nat)
    requires i <= |s| && '/' !in s
    ensures SameLineComments(s, i) == s[i..]
  {
    Patterns.IndexOfPairAbsent(s, i, '/', '*');
  }

  /** A one-line comment is cut out entirely, together with its delimiters: the first `/*`
      from `i` is at `o`, and the first `*/` after it is at `c`, with no line break between. */
  lemma SameLineCommentCut(s: string, i: nat, o: nat, c: nat)
    requires i <= o && o + 2 <= c && c + 2 <= |s|
    requires Patterns.PairAt(s, o, '/', '*') && forall k :: i <= k < o ==> !Patterns.PairAt(s, k, '/', '*')
    requires Patterns.PairAt(s, c, '*', '/') && forall k :: o + 2 <= k < c ==> !Patterns.PairAt(s, k, '*', '/')
    requires forall k :: o + 2 <= k < c ==> !IsLineTerminator(s[k])
    ensures SameLineComments(s, i) == s[i..o] + SameLineComments(s, c + 2)
  {
    CommentScans(s, i, o, c);
    CommentCutAssembled(s, i, o, c, SameLineComments(s, c + 2));
  }

  /** `SameLineComments` from the results of its searches on a one-line comment, with `rest`
      what is left after the comment. */
  lemma CommentCutAssembled(s: string, i: nat, o: nat, c: nat, rest: string)
    requires i <= o && o + 2 <= c && c + 2 <= |s|
    requires Patterns.IndexOfPair(s, i, '/', '*') == o && Patterns.IndexOfPair(s, o + 2, '*', '/') == c
    requires c < TerminatorFrom(s, o + 2) && rest == SameLineComments(s, c + 2)
    ensures SameLineComments(s, i) == s[i..o] + rest
  {
  }

  /** The searches of `SameLineComments` on a comment laid out as `SameLineCommentCut` says. */
  lemma CommentScans(s: string, i: nat, o: nat, c: nat)
    requires i <= o && o + 2 <= c && c + 2 <= |s|
    requires Patterns.PairAt(s, o, '/', '*') && forall k :: i <= k < o ==> !Patterns.PairAt(s, k, '/', '*')
    requires Patterns.PairAt(s, c, '*', '/') && forall k :: o + 2 <= k < c ==> !Patterns.PairAt(s, k, '*', '/')
    requires forall k :: o + 2 <= k < c ==> !IsLineTerminator(s[k])
    ensures Patterns.IndexOfPair(s, i, '/', '*') == o && Patterns.IndexOfPair(s, o + 2, '*', '/') == c
    ensures c < TerminatorFrom(s, o + 2)
  {
    Patterns.IndexOfPairOf(s, i, o, '/', '*');
    Patterns.IndexOfPairOf(s, o + 2, c, '*', '/');
    TerminatorFromPast(s, o + 2, c);
  }

  /** A comment that is not closed before the end of its line (a line terminator at `t`, or the
      end of the text) is no comment for the pattern: its `/` stays and the search goes on
      after it. */
  lemma TwoLineCommentKept(s: string, i: nat, o: nat, t: nat)
    requires i <= o && o + 2 <= t <= |s|
    requires Patterns.PairAt(s, o, '/', '*') && forall k :: i <= k < o ==> !Patterns.PairAt(s, k, '/', '*')
    requires forall k :: o + 2 <= k < t ==> !Patterns.PairAt(s, k, '*', '/')
    requires t == |s| || IsLineTerminator(s[t])
    ensures SameLineComments(s, i) == s[i..o + 1] + SameLineComments(s, o + 1)
  {
    Patterns.IndexOfPairOf(s, i, o, '/', '*');
    Patterns.IndexOfPairAtLeast(s, o + 2, t, '*', '/');
    if t < |s| {
      TerminatorFromBefore(s, o + 2, t);
    }
  }

  /** `getDSL`: the page's own rules when they are not blank; otherwise the hub lookup. */
  function DslOf(hub: string, scriptHtml: Option<string>, host: Option<string>,
                 fetch: string -> string, notBlank: string -> bool): (r: Try<Option<string>>)
    ensures notBlank(ScriptRules(scriptHtml)) ==> r == Ok(Some(ScriptRules(scriptHtml)))
    ensures !notBlank(ScriptRules(scriptHtml)) ==> r == HubDsl(hub, host, fetch, notBlank)
  {
    var fromScript := ScriptRules(scriptHtml);
    if notBlank(fromScript) then Ok(Some(fromScript)) else HubDsl(hub, host, fetch, notBlank)
  }

  /** The page's own rules are used whatever the host and whatever the hub would answer: the
      hub is not asked at all. */
  lemma ScriptWins(hub: string, scriptHtml: Option<string>, host1: Option<string>, host2: Option<string>,
                   fetch1: string -> string, fetch2: string -> string, notBlank: string -> bool)
    requires notBlank(ScriptRules(scriptHtml))
    ensures DslOf(hub, scriptHtml, host1, fetch1, notBlank) == DslOf(hub, scriptHtml, host2, fetch2, notBlank)
  {
  }

  /** `TVLikeDSL`: the rule hub it asks, and the lookups. */
  class Lookup {
    var hub: string

    /** The no-argument constructor keeps the default hub. */
    constructor ()
      ensures hub == DefaultHub
    {
      hub := DefaultHub;
    }

    /** The one-argument constructor takes a non-blank hub, ending it with `/`. */
    constructor WithHub(dslHub: Option<string>, notBlank: string -> bool)
      ensures hub == HubOf(dslHub, notBlank)
    {
      hub := DefaultHub;
      if dslHub.Some? && notBlank(dslHub.value) {
        hub := if EndsWith(dslHub.value, "/") then dslHub.value else dslHub.value + "/";
      }
    }

    /** `getHubDsl`: builds the candidates, then asks the hub for each in order and answers the
        first non-blank reply. */
    method GetHubDsl(host: Option<string>, fetch: string -> string, notBlank: string -> bool)
      returns (r: Try<Option<string>>)
      ensures r == HubDsl(hub, host, fetch, notBlank)
    {
      var list := HubCandidates(host);
      if list.Throws? {
        return Throws(list.exception);
      }
      var cands := list.value;
      var i := 0;
      while i < |cands|
        invariant 0 <= i <= |cands|
        invariant FirstFetched(hub, cands, fetch, notBlank) == FirstFetched(hub, cands[i..], fetch, notBlank)
      {
        var s := fetch(RequestUrl(hub, cands[i]));
        if notBlank(s) {
          return Ok(Some(s));
        }
        assert cands[i..][1..] == cands[i + 1..];
        i := i + 1;
      }
      return Ok(None);
    }

    /** `getDSL`: the page's own rules first, the hub otherwise. */
    method GetDsl(scriptHtml: Option<string>, host: Option<string>, fetch: string -> string,
                  notBlank: string -> bool) returns (r: Try<Option<string>>)
      ensures r == DslOf(hub, scriptHtml, host, fetch, notBlank)
    {
      var fromScript := ScriptRules(scriptHtml);
      if notBlank(fromScript) {
        return Ok(Some(fromScript));
      }
      r := GetHubDsl(host, fetch, notBlank);
    }
  }
}
