/**
 Which templates host an island, directly or through the templates they include
 (scripts/ui_migration_metrics.py:80-104, 371-393). The template tags that a text opens are given with it.
 */
module TemplateHosting {
  import opened Text

  datatype Template = Template(rel: string, text: string, opens: set<string>, includes: seq<string>)

  /** The joined pattern of no markers is empty and matches every text; that of no tags matches every tag. */
  predicate Direct(t: Template, markers: seq<string>, tags: set<string>) {
    || markers == []
    || (exists m :: m in markers && Contains(t.text, m))
    || OpensAny(t, tags)
  }

  predicate OpensAny(t: Template, tags: set<string>) {
    if tags == {} then t.opens != {} else t.opens * tags != {}
  }

  /** The paths are the keys of a dictionary. */
  ghost predicate Named(templates: seq<Template>) {
    forall i, j :: 0 <= i < j < |templates| ==> templates[i].rel != templates[j].rel
  }

  ghost function Names(templates: seq<Template>): set<string> {
    set t | t in templates :: t.rel
  }

  // ----- the specification: include chains

  ghost predicate DirectHost(templates: seq<Template>, markers: seq<string>, tags: set<string>, rel: string) {
    exists t :: t in templates && t.rel == rel && Direct(t, markers, tags)
  }

  ghost predicate Includes(templates: seq<Template>, rel: string, other: string) {
    exists t :: t in templates && t.rel == rel && other in t.includes
  }

  /** A chain of includes from `rel` to a direct host. */
  ghost predicate Chain(templates: seq<Template>, markers: seq<string>, tags: set<string>, rel: string,
          chain: seq<string>)
  {
    && chain != []
    && chain[0] == rel
    && (forall i :: 0 <= i < |chain| - 1 ==> Includes(templates, chain[i], chain[i + 1]))
    && DirectHost(templates, markers, tags, chain[|chain| - 1])
  }

  ghost predicate Reaches(templates: seq<Template>, markers: seq<string>, tags: set<string>, rel: string) {
    exists chain :: Chain(templates, markers, tags, rel, chain)
  }

  lemma DirectReaches(templates: seq<Template>, markers: seq<string>, tags: set<string>, rel: string)
    requires DirectHost(templates, markers, tags, rel)
    ensures Reaches(templates, markers, tags, rel)
  {
    assert Chain(templates, markers, tags, rel, [rel]);
  }

  lemma IncluderReaches(templates: seq<Template>, markers: seq<string>, tags: set<string>, rel: string, other: string)
    requires Includes(templates, rel, other) && Reaches(templates, markers, tags, other)
    ensures Reaches(templates, markers, tags, rel)
  {
    var chain :| Chain(templates, markers, tags, other, chain);
    var longer := [rel] + chain;
    assert forall i :: 0 < i < |longer| ==> longer[i] == chain[i - 1];
    assert Chain(templates, markers, tags, rel, longer);
  }

  /** Nothing outside the set can be added by direct hosts or by one include. */
  ghost predicate Closed(templates: seq<Template>, markers: seq<string>, tags: set<string>, hosts: set<string>) {
    && (forall rel :: DirectHost(templates, markers, tags, rel) ==> rel in hosts)
    && (forall rel, other :: Includes(templates, rel, other) && other in hosts ==> rel in hosts)
  }

  lemma {:induction false} ChainIsInside(templates: seq<Template>, markers: seq<string>, tags: set<string>,
          hosts: set<string>, rel: string, chain: seq<string>)
    requires Closed(templates, markers, tags, hosts) && Chain(templates, markers, tags, rel, chain)
    ensures rel in hosts
    decreases |chain|
  {
    if |chain| > 1 {
      assert Includes(templates, chain[0], chain[1]);
      var rest := chain[1..];
      forall i | 0 <= i < |rest| - 1 ensures Includes(templates, rest[i], rest[i + 1]) {
        assert Includes(templates, chain[i + 1], chain[i + 2]);
      }
      ChainIsInside(templates, markers, tags, hosts, chain[1], rest);
    }
  }

  // ----- the loop as the source writes it

  datatype Info = Info(direct: bool, viaInclude: bool, hosts: bool)

  function AnyIn(names: seq<string>, hosts: set<string>): (b: bool)
    ensures b <==> exists n :: n in names && n in hosts
  {
    names != [] && (names[0] in hosts || AnyIn(names[1..], hosts))
  }

  lemma IncludeStep(templates: seq<Template>, markers: seq<string>, tags: set<string>, t: Template, hosts: set<string>)
    requires t in templates && AnyIn(t.includes, hosts)
    requires forall h :: h in hosts ==> Reaches(templates, markers, tags, h)
    ensures Reaches(templates, markers, tags, t.rel)
  {
    var other :| other in t.includes && other in hosts;
    assert Includes(templates, t.rel, other);
    IncluderReaches(templates, markers, tags, t.rel, other);
  }

  method DirectHosts(templates: seq<Template>, markers: seq<string>, tags: set<string>) returns (hosts: set<string>)
    ensures forall rel :: rel in hosts <==> DirectHost(templates, markers, tags, rel)
  {
    hosts := {};
    for i := 0 to |templates|
      invariant forall rel ::
                  rel in hosts <==> exists j ::
                    0 <= j < i && templates[j].rel == rel && Direct(templates[j], markers, tags)
    {
      if Direct(templates[i], markers, tags) {
        hosts := hosts + {templates[i].rel};
      }
    }
    forall rel ensures rel in hosts <==> DirectHost(templates, markers, tags, rel) {
      if j :| 0 <= j < |templates| && templates[j].rel == rel && Direct(templates[j], markers, tags) {
        assert templates[j] in templates;
      }
    }
  }

  /** One pass over all templates in their order; `hosts` grows while the pass goes on. */
  method Pass(templates: seq<Template>, markers: seq<string>, tags: set<string>, hosts0: set<string>)
    returns (hosts: set<string>, changed: bool)
    requires hosts0 <= Names(templates) && forall h :: h in hosts0 ==> Reaches(templates, markers, tags, h)
    ensures hosts0 <= hosts <= Names(templates) && forall h :: h in hosts ==> Reaches(templates, markers, tags, h)
    ensures changed <==> hosts != hosts0
    ensures !changed ==> forall t :: t in templates && AnyIn(t.includes, hosts) ==> t.rel in hosts
  {
    hosts, changed := hosts0, false;
    for i := 0 to |templates|
      invariant hosts0 <= hosts <= Names(templates) && forall h :: h in hosts ==> Reaches(templates, markers, tags, h)
      invariant changed <==> hosts != hosts0
      invariant !changed ==> forall j :: 0 <= j < i && AnyIn(templates[j].includes, hosts) ==> templates[j].rel in hosts
    {
      var t := templates[i];
      if t.rel !in hosts && AnyIn(t.includes, hosts) {
        IncludeStep(templates, markers, tags, t, hosts);
        hosts := hosts + {t.rel};
        changed := true;
      }
    }
  }

  /** The entries of the returned dictionary; `via_include` is set where the loop added the template. */
  ghost predicate Described(templates: seq<Template>, markers: seq<string>, tags: set<string>,
          info: map<string, Info>) {
    && info.Keys == Names(templates)
    && forall t :: t in templates ==>
         && (info[t.rel].direct <==> Direct(t, markers, tags))
         && (info[t.rel].hosts <==> Reaches(templates, markers, tags, t.rel))
         && (info[t.rel].viaInclude <==> info[t.rel].hosts && !info[t.rel].direct)
  }

  /** The fixpoint loop: every template that reaches a direct host, and no other. */
  method Fixpoint(templates: seq<Template>, markers: seq<string>, tags: set<string>, direct: set<string>)
    returns (hosts: set<string>)
    requires forall rel :: rel in direct <==> DirectHost(templates, markers, tags, rel)
    ensures forall rel :: rel in hosts <==> Reaches(templates, markers, tags, rel)
  {
    hosts := direct;
    forall h | h in hosts ensures Reaches(templates, markers, tags, h) && h in Names(templates) {
      DirectReaches(templates, markers, tags, h);
    }
    hide Reaches, DirectHost;
    var changed := true;
    while changed
      invariant direct <= hosts <= Names(templates) && forall h :: h in hosts ==> Reaches(templates, markers, tags, h)
      invariant !changed ==> forall t :: t in templates && AnyIn(t.includes, hosts) ==> t.rel in hosts
      decreases Names(templates) - hosts, changed
    {
      hosts, changed := Pass(templates, markers, tags, hosts);
    }
    FixpointIsClosed(templates, markers, tags, hosts);
    forall rel | Reaches(templates, markers, tags, rel) ensures rel in hosts {
      ReachersAreInside(templates, markers, tags, hosts, rel);
    }
  }

  lemma FixpointIsClosed(templates: seq<Template>, markers: seq<string>, tags: set<string>, hosts: set<string>)
    requires forall rel :: DirectHost(templates, markers, tags, rel) ==> rel in hosts
    requires forall t :: t in templates && AnyIn(t.includes, hosts) ==> t.rel in hosts
    ensures Closed(templates, markers, tags, hosts)
  {
    forall rel, other | Includes(templates, rel, other) && other in hosts ensures rel in hosts {
      var t :| t in templates && t.rel == rel && other in t.includes;
      assert AnyIn(t.includes, hosts);
    }
  }

  lemma ReachersAreInside(templates: seq<Template>, markers: seq<string>, tags: set<string>, hosts: set<string>,
          rel: string)
    requires Closed(templates, markers, tags, hosts) && Reaches(templates, markers, tags, rel)
    ensures rel in hosts
  {
    var chain :| Chain(templates, markers, tags, rel, chain);
    ChainIsInside(templates, markers, tags, hosts, rel, chain);
  }

  function EntryOf(t: Template, markers: seq<string>, tags: set<string>, hosts: set<string>,
          direct: set<string>): Info {
    Info(Direct(t, markers, tags), t.rel in hosts && t.rel !in direct, t.rel in hosts)
  }

  method Hosting(templates: seq<Template>, markers: seq<string>, tags: set<string>) returns (info: map<string, Info>)
    requires Named(templates)
    ensures Described(templates, markers, tags, info)
  {
    var direct := DirectHosts(templates, markers, tags);
    var hosts := Fixpoint(templates, markers, tags, direct);
    hide Reaches, DirectHost, Direct, Described, EntryOf;
    info := map[];
    for i := 0 to |templates|
      invariant forall rel :: rel in info <==> exists j :: 0 <= j < i && templates[j].rel == rel
      invariant forall j :: 0 <= j < i ==>
                  templates[j].rel in info
                      && info[templates[j].rel] == EntryOf(templates[j], markers, tags, hosts, direct)
    {
      info := info[templates[i].rel := EntryOf(templates[i], markers, tags, hosts, direct)];
    }
    Describe(templates, markers, tags, info, hosts, direct);
  }

  lemma Describe(templates: seq<Template>, markers: seq<string>, tags: set<string>, info: map<string, Info>,
          hosts: set<string>, direct: set<string>)
    requires Named(templates)
    requires forall rel :: rel in direct <==> DirectHost(templates, markers, tags, rel)
    requires forall rel :: rel in hosts <==> Reaches(templates, markers, tags, rel)
    requires forall rel :: rel in info <==> exists j :: 0 <= j < |templates| && templates[j].rel == rel
    requires forall j :: 0 <= j < |templates| ==>
               templates[j].rel in info && info[templates[j].rel] == EntryOf(templates[j], markers, tags, hosts, direct)
    ensures Described(templates, markers, tags, info)
  {
    hide Reaches, Direct;
    forall t | t in templates
      ensures t.rel in info && info[t.rel] == EntryOf(t, markers, tags, hosts, direct)
      ensures Direct(t, markers, tags) <==> t.rel in direct
    {
      var i :| 0 <= i < |templates| && templates[i] == t;
      if u :| u in templates && u.rel == t.rel && Direct(u, markers, tags) {
        var j :| 0 <= j < |templates| && templates[j] == u;
      }
    }
    forall rel ensures rel in info.Keys <==> rel in Names(templates) {
      if j :| 0 <= j < |templates| && templates[j].rel == rel {
        assert templates[j] in templates;
      }
      if t :| t in templates && t.rel == rel {
        var j :| 0 <= j < |templates| && templates[j] == t;
      }
    }
  }

  // ----- properties of the result

  /** The iteration order is irrelevant: the same templates in any order have the same hosts. */
  lemma OrderIsIrrelevant(templates: seq<Template>, others: seq<Template>, markers: seq<string>, tags: set<string>,
          rel: string)
    requires forall t :: t in templates <==> t in others
    ensures Reaches(templates, markers, tags, rel) <==> Reaches(others, markers, tags, rel)
  {
    if chain :| Chain(templates, markers, tags, rel, chain) {
      SameChain(templates, others, markers, markers, tags, tags, rel, chain);
    }
    if chain :| Chain(others, markers, tags, rel, chain) {
      SameChain(others, templates, markers, markers, tags, tags, rel, chain);
    }
  }

  lemma SameChain(templates: seq<Template>, others: seq<Template>, markers: seq<string>, more: seq<string>,
          tags: set<string>, moreTags: set<string>, rel: string, chain: seq<string>)
    requires forall t :: t in templates ==> t in others
    requires forall t :: t in templates && Direct(t, markers, tags) ==> Direct(t, more, moreTags)
    requires Chain(templates, markers, tags, rel, chain)
    ensures Chain(others, more, moreTags, rel, chain)
  {
    forall i | 0 <= i < |chain| - 1 ensures Includes(others, chain[i], chain[i + 1]) {
      assert Includes(templates, chain[i], chain[i + 1]);
    }
  }

  lemma FewerTagsFewerMatches(t: Template, fewer: set<string>, tags: set<string>)
    requires fewer <= tags && (fewer != {} || tags == {}) && OpensAny(t, fewer)
    ensures OpensAny(t, tags)
  {
    if tags != {} {
      var x :| x in t.opens * fewer;
      assert x in t.opens * tags;
    }
  }

  /** Fewer markers and tags, as for the substantive islands, can only lose hosts, provided some of each are left. */
  lemma FewerMarkersFewerHosts(templates: seq<Template>, fewer: seq<string>, markers: seq<string>,
          fewerTags: set<string>, tags: set<string>, rel: string)
    requires (forall m :: m in fewer ==> m in markers) && fewerTags <= tags
    requires MatchesAll(markers) || (fewer != [] && (fewerTags != {} || tags == {}))
    requires Reaches(templates, fewer, fewerTags, rel)
    ensures Reaches(templates, markers, tags, rel)
  {
    var chain :| Chain(templates, fewer, fewerTags, rel, chain);
    forall t | t in templates && Direct(t, fewer, fewerTags) ensures Direct(t, markers, tags) {
      if MatchesAll(markers) {
        assert Contains(t.text, "");
      } else if OpensAny(t, fewerTags) {
        FewerTagsFewerMatches(t, fewerTags, tags);
      }
    }
    SameChain(templates, templates, fewer, markers, fewerTags, tags, rel, chain);
  }

  /** The pattern matches the empty text, and so every text. */
  predicate MatchesAll(markers: seq<string>) {
    markers == [] || "" in markers
  }

  ghost predicate NeverGains(fewer: seq<string>, markers: seq<string>, fewerTags: set<string>, tags: set<string>) {
    forall templates, rel :: Reaches(templates, fewer, fewerTags, rel) ==> Reaches(templates, markers, tags, rel)
  }

  /** A single template that includes nothing is a host only by itself. */
  lemma LoneTemplate(t: Template, markers: seq<string>, tags: set<string>)
    requires t.includes == []
    ensures Reaches([t], markers, tags, t.rel) <==> Direct(t, markers, tags)
  {
    if Direct(t, markers, tags) {
      DirectReaches([t], markers, tags, t.rel);
    }
    if chain :| Chain([t], markers, tags, t.rel, chain) {
      assert |chain| > 1 ==> Includes([t], chain[0], chain[1]);
    }
  }

  /** A string that is longer than all of a set is none of them. */
  lemma Longer(tags: set<string>) returns (n: nat)
    ensures forall t :: t in tags ==> |t| < n
    decreases |tags|
  {
    if tags == {} {
      n := 0;
    } else {
      var t :| t in tags;
      var m := Longer(tags - {t});
      n := if |t| < m then m else |t| + 1;
    }
  }

  lemma NewTag(tags: set<string>) returns (tag: string)
    ensures tag !in tags
  {
    var n := Longer(tags);
    tag := seq(n, i => 'x');
    assert |tag| == n;
  }

  /**
   Exactly when a smaller choice of markers and tags can gain no host, whatever the templates: as long as some of each
   are left, or the larger choice matched every template anyway. Without markers even an empty template is a host,
   and without tags every template that opens any.
   */
  lemma NeverGainsIff(fewer: seq<string>, markers: seq<string>, fewerTags: set<string>, tags: set<string>)
    requires (forall m :: m in fewer ==> m in markers) && fewerTags <= tags
    ensures NeverGains(fewer, markers, fewerTags, tags)
       <==> MatchesAll(markers) || (fewer != [] && (fewerTags != {} || tags == {}))
  {
    if MatchesAll(markers) || (fewer != [] && (fewerTags != {} || tags == {})) {
      forall templates, rel | Reaches(templates, fewer, fewerTags, rel) ensures Reaches(templates, markers, tags, rel) {
        FewerMarkersFewerHosts(templates, fewer, markers, fewerTags, tags, rel);
      }
    } else {
      var tag := NewTag(tags);
      var t := Template("gained.html", "", if fewer == [] then {} else {tag}, []);
      LoneTemplate(t, fewer, fewerTags);
      LoneTemplate(t, markers, tags);
      NotMatched(t, markers, tags);
      assert Reaches([t], fewer, fewerTags, t.rel) && !Reaches([t], markers, tags, t.rel);
    }
  }

  lemma NotMatched(t: Template, markers: seq<string>, tags: set<string>)
    requires t.text == "" && !MatchesAll(markers) && t.opens * tags == {} && (tags == {} ==> t.opens == {})
    ensures !Direct(t, markers, tags)
  {
    assert forall m :: Contains("", m) ==> m == "";
  }
}
