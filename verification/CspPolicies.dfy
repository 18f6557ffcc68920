/** Content security policies written out from their directives, and what the
    detector and the re-check make of them.
 */
module CspPolicies {
  import opened Findings
  import opened HeaderChecks
  import opened TextLaws
  import opened Wrappers
  import T = Text
  import V = HeaderVerification

  datatype Directive = Directive(name: string, sources: seq<string>)

  function SourceList(sources: seq<string>): string {
    if sources == [] then "" else " " + sources[0] + SourceList(sources[1..])
  }

  /** "script-src 'self' https:" and the like. */
  function Render(d: Directive): string {
    d.name + SourceList(d.sources)
  }

  /** The directives with a semicolon and a space in between. */
  function Policy(ds: seq<Directive>): string {
    if ds == [] then ""
    else if |ds| == 1 then Render(ds[0])
    else Render(ds[0]) + ";" + (" " + Policy(ds[1..]))
  }

  ghost predicate IsToken(s: string) {
    IsWord(s) && ';' !in s
  }

  ghost predicate WellFormed(d: Directive) {
    IsToken(d.name) && forall i :: 0 <= i < |d.sources| ==> IsToken(d.sources[i])
  }

  ghost predicate AllWellFormed(ds: seq<Directive>) {
    forall i :: 0 <= i < |ds| ==> WellFormed(ds[i])
  }

  /** The directive lets everything in. */
  predicate Broad(d: Directive) {
    "*" in d.sources || "https:" in d.sources || "http:" in d.sources
  }

  lemma {:induction false} SourcesSplit(sources: seq<string>)
    requires forall i :: 0 <= i < |sources| ==> IsToken(sources[i])
    ensures T.Words(SourceList(sources)) == sources
    ensures ';' !in SourceList(sources)
  {
    if sources == [] {
      NoWords("");
    } else {
      assert IsToken(sources[0]);
      SourcesSplit(sources[1..]);
      WordsTakeFirst(" ", sources[0], SourceList(sources[1..]));
    }
  }

  lemma WordThen(word: string, list: string, text: string)
    requires IsWord(word) && (list == "" || T.IsSpace(list[0])) && text == word + list
    ensures T.Words(text) == [word] + T.Words(list)
  {
    var gap := "";
    assert gap + word + list == text;
    WordsTakeFirst(gap, word, list);
  }

  lemma DirectiveSplits(d: Directive)
    requires WellFormed(d)
    ensures T.Words(Render(d)) == [d.name] + d.sources && ';' !in Render(d)
  {
    SourcesSplit(d.sources);
    WordThen(d.name, SourceList(d.sources), Render(d));
  }

  lemma {:induction false} SourceListEnds(sources: seq<string>)
    requires sources != [] && forall i :: 0 <= i < |sources| ==> IsToken(sources[i])
    ensures SourceList(sources) != "" && !T.IsSpace(SourceList(sources)[|SourceList(sources)| - 1])
  {
    assert IsToken(sources[0]);
    if |sources| > 1 {
      SourceListEnds(sources[1..]);
    } else {
      assert SourceList(sources[1..]) == "";
    }
  }

  lemma DirectiveIsTrimmed(d: Directive)
    requires WellFormed(d)
    ensures Render(d) != "" && Trimmed(Render(d))
  {
    if d.sources != [] {
      SourceListEnds(d.sources);
    } else {
      assert Render(d) == d.name;
    }
  }

  /** A segment, with or without a space in front, is read as the directive. */
  lemma SegmentReads(gap: string, d: Directive)
    requires WellFormed(d) && AllSpaces(gap)
    ensures T.Strip(gap + Render(d)) == Render(d) && Sources(gap + Render(d)) == d.sources
    ensures Permissive(gap + Render(d)) <==> Broad(d)
  {
    DirectiveIsTrimmed(d);
    assert gap + Render(d) + "" == gap + Render(d);
    StripTakesPadding(gap, Render(d), "");
    DirectiveSplits(d);
    assert ([d.name] + d.sources)[1..] == d.sources;
    BroadSources(d.sources);
  }

  lemma BroadSources(sources: seq<string>)
    ensures (exists source :: source in sources && BroadSource(source))
            <==> "*" in sources || "https:" in sources || "http:" in sources
  {
    if "*" in sources {
      assert BroadSource("*");
    }
    if "https:" in sources {
      assert BroadSource("https:");
    }
    if "http:" in sources {
      assert BroadSource("http:");
    }
  }

  lemma SplitOne(gap: string, d: Directive, rest: string)
    requires WellFormed(d) && ';' !in gap
    ensures T.Split(gap + Render(d) + ";" + rest, ';') == [gap + Render(d)] + T.Split(rest, ';')
    ensures T.Split(gap + Render(d), ';') == [gap + Render(d)]
  {
    DirectiveSplits(d);
    var piece := gap + Render(d);
    T.BeforeStops(piece, ';', ";" + rest);
    assert piece + ";" + rest == piece + (";" + rest);
    assert (piece + ";" + rest)[|piece| + 1..] == rest;
    T.BeforeStops(piece, ';', "");
    assert piece + "" == piece;
  }

  /** The first broad directive, if there is one. */
  function FirstBroad(ds: seq<Directive>): Option<string> {
    if ds == [] then None else if Broad(ds[0]) then Some(Render(ds[0])) else FirstBroad(ds[1..])
  }

  lemma {:induction false} FirstBroadIsFirst(ds: seq<Directive>)
    ensures FirstBroad(ds).None? <==> forall i :: 0 <= i < |ds| ==> !Broad(ds[i])
    ensures FirstBroad(ds).Some? ==>
              exists n :: 0 <= n < |ds| && Broad(ds[n]) && FirstBroad(ds) == Some(Render(ds[n]))
                          && forall i :: 0 <= i < n ==> !Broad(ds[i])
  {
    if ds != [] && !Broad(ds[0]) {
      FirstBroadIsFirst(ds[1..]);
      assert forall i :: 1 <= i < |ds| ==> ds[i] == ds[1..][i - 1];
      if FirstBroad(ds).Some? {
        var n :| 0 <= n < |ds[1..]| && Broad(ds[1..][n]) && FirstBroad(ds[1..]) == Some(Render(ds[1..][n]))
              && forall i :: 0 <= i < n ==> !Broad(ds[1..][i]);
        assert ds[n + 1] == ds[1..][n];
        assert forall i :: 0 < i < n + 1 ==> ds[i] == ds[1..][i - 1];
      }
    }
  }

  lemma FirstOf(head: string, tail: seq<string>)
    ensures FirstPermissive([head] + tail) == if Permissive(head) then Some(T.Strip(head)) else FirstPermissive(tail)
  {
    assert ([head] + tail)[1..] == tail;
  }

  /** One segment, and what is found behind it. */
  lemma HeadReads(gap: string, d: Directive, tail: seq<string>)
    requires WellFormed(d) && AllSpaces(gap)
    ensures FirstPermissive([gap + Render(d)] + tail) == if Broad(d) then Some(Render(d)) else FirstPermissive(tail)
  {
    SegmentReads(gap, d);
    FirstOf(gap + Render(d), tail);
  }

  lemma PolicyBegins(gap: string, ds: seq<Directive>)
    requires ds != []
    ensures |ds| == 1 ==> gap + Policy(ds) == gap + Render(ds[0])
    ensures |ds| > 1 ==> gap + Policy(ds) == gap + Render(ds[0]) + ";" + (" " + Policy(ds[1..]))
  {
    if |ds| > 1 {
      Regrouped(gap, Render(ds[0]), " " + Policy(ds[1..]));
    }
  }

  lemma Regrouped(gap: string, first: string, rest: string)
    ensures gap + (first + ";" + rest) == gap + first + ";" + rest
  {
  }

  lemma {:induction false} PolicyReads(gap: string, ds: seq<Directive>)
    requires AllWellFormed(ds) && AllSpaces(gap) && ';' !in gap && ds != []
    ensures FirstPermissive(T.Split(gap + Policy(ds), ';')) == FirstBroad(ds)
    decreases |ds|
  {
    var d, rest, text := ds[0], " " + Policy(ds[1..]), gap + Policy(ds);
    assert WellFormed(d);
    PolicyBegins(gap, ds);
    SplitOne(gap, d, rest);
    if |ds| == 1 {
      HeadReads(gap, d, []);
      assert [gap + Render(d)] + [] == [gap + Render(d)];
      assert T.Split(text, ';') == [gap + Render(d)];
      assert FirstPermissive([]) == None && FirstBroad(ds[1..]) == None;
    } else {
      assert AllWellFormed(ds[1..]);
      PolicyReads(" ", ds[1..]);
      HeadReads(gap, d, T.Split(rest, ';'));
    }
  }

  /** A policy written from its directives is reported as overly permissive, by the
      first directive with a source that lets everything in, and only if there is
      one; the re-check confirms it exactly then. */
  lemma PolicyIsPermissiveIff(ds: seq<Directive>)
    requires AllWellFormed(ds) && ds != []
    ensures PermissiveFindings(Policy(ds))
            == match FirstBroad(ds)
               case None => []
               case Some(directive) => [HeaderFinding(CspOverlyPermissive, Medium, directive, [])]
    ensures V.PermissiveDirective(T.Split(Policy(ds), ';')) == FirstBroad(ds)
    ensures V.Emits(CspFindings(Policy(ds)), CspOverlyPermissive) <==> exists i :: 0 <= i < |ds| && Broad(ds[i])
  {
    assert "" + Policy(ds) == Policy(ds);
    PolicyReads("", ds);
    FirstBroadIsFirst(ds);
    V.ScansAgree(T.Split(Policy(ds), ';'));
    PermissiveIsReported(Policy(ds), FirstBroad(ds).Some?);
  }

  lemma PermissiveIsReported(csp: string, found: bool)
    requires FirstPermissive(T.Split(csp, ';')).Some? == found
    ensures V.Emits(CspFindings(csp), CspOverlyPermissive) <==> found
  {
    var f := Plain(CspOverlyPermissive, Medium);
    var r := Response(csp, "", "", "", "", "", "", "", "", []);
    V.CspAgrees(f, "", r);
    V.ScansAgree(T.Split(csp, ';'));
  }
}
