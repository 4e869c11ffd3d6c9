/**
 The HTML loader (`rag.loader.html2`): URL-scoped selector rules drive the extraction of
 text segments from a parsed HTML document.

 The pipeline of one `load(buffer, url)` call:
   1. gather the selectors of every rule whose URL pattern accepts `url`, in rule order
      and then within-rule order (`Gather`);
   2. append the `body` fallback and its warning when no text selector was gathered
      (`WithFallback`);
   3. run each selector against the parsed document, emitting one fragment per match
      for an "all" selector and the first match otherwise, and recording the
      selectors that match nothing (`Run`);
   4. add one summary warning for the failed selectors (`Process`);
   5. assemble the parallel `content` / `partitions` arrays and the digest (`Load`).

 The parser, the CSS selector engine, `toText`, `md5` and the URL matcher are external
 libraries; they are the function-valued fields of `Env`.
 */
module HtmlLoader {
  import opened Wrappers
  import opened Text

  newtype byte = x: int | 0 <= x < 256

  // ---------------------------------------------------------------------------
  // Documents and the external collaborators
  // ---------------------------------------------------------------------------

  /** A location in the source text, as the parser reports it. */
  datatype Point = Point(line: nat, column: nat, offset: nat)

  /** The source span of a node; carried into the partitions unchanged. */
  datatype Span = Span(start: Point, end: Point)

  /** A parsed element: what the loader reads of it is its `properties` and `position`;
      `node` tells apart elements whose properties coincide. */
  datatype Element = Element(node: nat, tagName: string, properties: map<string, string>, position: Option<Span>)

  /** A parsed document, seen only through the selector engine. */
  datatype Document = Document(elements: seq<Element>)

  /** The external libraries the loader calls, as total functions:
      - `urlMatches(pattern, url)` is `createUrlMatcher(pattern)(url)`;
      - `parse` is the frozen rehype processor's `parse`;
      - `selectAll(selector, doc)` is hast-util-select's `selectAll`, in document order;
      - `toText` is hast-util-to-text;
      - `md5` is the hex digest of a string. */
  datatype Env = Env(
    urlMatches: (string, string) -> bool,
    parse: seq<byte> -> Document,
    selectAll: (string, Document) -> seq<Element>,
    toText: Element -> string,
    md5: string -> string)

  /** hast-util-select's `select`: the first element `selectAll` would return. */
  function Select(env: Env, selector: string, doc: Document): (r: Option<Element>)
    ensures r.None? <==> env.selectAll(selector, doc) == []
    ensures r.Some? ==> r.value == env.selectAll(selector, doc)[0]
  {
    var all := env.selectAll(selector, doc);
    if |all| == 0 then None else Some(all[0])
  }

  // ---------------------------------------------------------------------------
  // Configuration
  // ---------------------------------------------------------------------------

  /** The `type` of a selector item. */
  datatype ContentType = DomText | DomContentAttr

  /** A selector item `{selector, all, type}`; an omitted `all` is `false` and an omitted
      `type` is `None`. */
  datatype SelectorItem = SelectorItem(selector: string, all: bool, kind: Option<ContentType>)

  /** One entry of `contentExtraction`: the selectors that apply to URLs matching `url`. */
  datatype Rule = Rule(url: string, selectors: seq<SelectorItem>)

  /** The validated loader options (the parser options live in `Env.parse`). */
  datatype Options = Options(contentExtraction: Option<seq<Rule>>)

  /** The configured rules; no rules when `contentExtraction` is absent. */
  function Rules(options: Options): seq<Rule>
  {
    options.contentExtraction.GetOr([])
  }

  // ---------------------------------------------------------------------------
  // Step 1: gathering the selectors of the matching rules
  // ---------------------------------------------------------------------------

  /** The selectors one rule contributes for `url`. */
  function Contribution(rule: Rule, url: string, env: Env): seq<SelectorItem>
  {
    if env.urlMatches(rule.url, url) then rule.selectors else []
  }

  /** The selectors of every rule that accepts `url`, rule by rule. */
  function Gather(rules: seq<Rule>, url: string, env: Env): (r: seq<SelectorItem>)
    ensures |r| <= SelectorCount(rules)
    ensures (forall i :: 0 <= i < |rules| ==> env.urlMatches(rules[i].url, url)) ==> |r| == SelectorCount(rules)
    decreases |rules|
  {
    if |rules| == 0 then []
    else
      var init := rules[..|rules| - 1];
      assert forall i :: 0 <= i < |init| ==> init[i] == rules[i];
      Gather(init, url, env) + Contribution(rules[|rules| - 1], url, env)
  }

  /** The number of selectors the rules list, over all of them. */
  function SelectorCount(rules: seq<Rule>): nat
    decreases |rules|
  {
    if |rules| == 0 then 0 else SelectorCount(rules[..|rules| - 1]) + |rules[|rules| - 1].selectors|
  }

  /** Exactly the selectors of the rules that accept `url` are gathered. */
  lemma {:induction false} GatherMembers(rules: seq<Rule>, url: string, env: Env)
    ensures forall s :: s in Gather(rules, url, env) <==>
      exists i :: 0 <= i < |rules| && env.urlMatches(rules[i].url, url) && s in rules[i].selectors
    decreases |rules|
  {
    if |rules| > 0 {
      var init := rules[..|rules| - 1];
      GatherMembers(init, url, env);
      assert forall i :: 0 <= i < |init| ==> init[i] == rules[i];
    }
  }

  /** Gathering distributes over concatenation of rule lists: rule order is kept. */
  lemma {:induction false} GatherConcat(a: seq<Rule>, b: seq<Rule>, url: string, env: Env)
    ensures Gather(a + b, url, env) == Gather(a, url, env) + Gather(b, url, env)
    decreases |b|
  {
    if |b| == 0 {
      assert a + b == a;
    } else {
      var b', last := b[..|b| - 1], b[|b| - 1];
      assert (a + b)[..|a + b| - 1] == a + b';
      assert (a + b)[|a + b| - 1] == last;
      var c := Contribution(last, url, env);
      assert Gather(a + b, url, env) == Gather(a + b', url, env) + c;
      GatherConcat(a, b', url, env);
      AppendAssoc(Gather(a, url, env), Gather(b', url, env), c);
    }
  }

  /** Rule `i` contributes its selectors, whole and in their own order, exactly between
      the contributions of the rules before it and those after it; when its pattern does
      not accept `url` it contributes nothing. */
  lemma GatherSplit(rules: seq<Rule>, i: nat, url: string, env: Env)
    requires i < |rules|
    ensures Gather(rules, url, env)
      == Gather(rules[..i], url, env) + Contribution(rules[i], url, env) + Gather(rules[i + 1..], url, env)
    ensures !env.urlMatches(rules[i].url, url) ==>
      Gather(rules, url, env) == Gather(rules[..i] + rules[i + 1..], url, env)
  {
    var before, rule, after := rules[..i], rules[i], rules[i + 1..];
    assert rules == (before + [rule]) + after;
    GatherConcat(before + [rule], after, url, env);
    GatherConcat(before, [rule], url, env);
    assert [rule][..0] == [];
    var c := Contribution(rule, url, env);
    assert Gather([rule], url, env) == c;
    if !env.urlMatches(rule.url, url) {
      GatherConcat(before, after, url, env);
      assert Gather(before, url, env) + c == Gather(before, url, env);
    }
  }

  // ---------------------------------------------------------------------------
  // Step 2: the fallback policy
  // ---------------------------------------------------------------------------

  const FallbackSelector: SelectorItem := SelectorItem("body", false, Some(DomText))

  const FallbackWarning: string :=
    "No content selector provided for this URL. " + "the default selector `body` always contains redundancy content."

  /** A selector type that extracts text: an omitted type or `dom-text`. */
  predicate IsTextKind(kind: Option<ContentType>)
  {
    kind.None? || kind == Some(DomText)
  }

  /** Some item extracts text. */
  predicate HasTextSelector(items: seq<SelectorItem>)
  {
    exists i :: 0 <= i < |items| && IsTextKind(items[i].kind)
  }

  /** The fallback is needed when nothing was gathered or no gathered item extracts text. */
  predicate NeedsFallback(items: seq<SelectorItem>)
  {
    |items| == 0 || !HasTextSelector(items)
  }

  /** The selectors to run and the warnings so far. */
  datatype Plan = Plan(selectors: seq<SelectorItem>, warning: seq<string>)

  /** The gathered selectors, with the `body` fallback appended when none extracts text. */
  function WithFallback(items: seq<SelectorItem>): (p: Plan)
    ensures |p.selectors| >= |items| && p.selectors[..|items|] == items
    ensures |p.selectors| == |items| + 1 <==> NeedsFallback(items)
    ensures NeedsFallback(items) ==> p.selectors[|items|] == FallbackSelector && p.warning == [FallbackWarning]
    ensures !NeedsFallback(items) ==> p.selectors == items && p.warning == []
    ensures HasTextSelector(p.selectors)
  {
    if NeedsFallback(items) then
      var r := items + [FallbackSelector];
      assert IsTextKind(r[|items|].kind);
      Plan(r, [FallbackWarning])
    else
      Plan(items, [])
  }

  /** Applying the policy to its own output changes nothing and warns nothing. */
  lemma WithFallbackIdempotent(items: seq<SelectorItem>)
    ensures WithFallback(WithFallback(items).selectors) == Plan(WithFallback(items).selectors, [])
  {
  }

  // ---------------------------------------------------------------------------
  // Step 3: running the selectors
  // ---------------------------------------------------------------------------

  /** `getContent(element, type)`: the `content` property for `'dom-content-attr'`
      (`""` when it is missing), the element's text otherwise. */
  function GetContent(element: Element, kind: Option<ContentType>, env: Env): (r: string)
    ensures kind == Some(DomContentAttr) && "content" !in element.properties ==> r == ""
    ensures kind == Some(DomContentAttr) && "content" in element.properties ==> r == element.properties["content"]
    ensures kind != Some(DomContentAttr) ==> r == env.toText(element)
  {
    if kind == Some(DomContentAttr) then
      if "content" in element.properties then element.properties["content"] else ""
    else
      env.toText(element)
  }

  /** One fragment of extracted content: its text, the selector that produced it and the
      element it came from. */
  datatype Extracted = Extracted(content: string, selector: string, element: Element)

  /** The fragment for one matched element. */
  function Fragment(item: SelectorItem, element: Element, env: Env): Extracted
  {
    Extracted(GetContent(element, item.kind, env), item.selector, element)
  }

  /** The fragments one selector item emits. */
  function Emit(item: SelectorItem, doc: Document, env: Env): (r: seq<Extracted>)
    ensures item.all ==> |r| == |env.selectAll(item.selector, doc)|
    ensures item.all ==> forall k :: 0 <= k < |r| ==> r[k] == Fragment(item, env.selectAll(item.selector, doc)[k], env)
    ensures forall k :: 0 <= k < |r| ==> r[k] == Fragment(item, r[k].element, env)
    ensures !item.all ==> |r| <= 1
    ensures !item.all && |r| == 1 ==> Select(env, item.selector, doc) == Some(r[0].element) && r[0] == Fragment(item, r[0].element, env)
    ensures r == [] <==> env.selectAll(item.selector, doc) == []
  {
    if item.all then
      var elements := env.selectAll(item.selector, doc);
      seq(|elements|, k requires 0 <= k < |elements| => Fragment(item, elements[k], env))
    else
      match Select(env, item.selector, doc)
      case Some(e) => [Fragment(item, e, env)]
      case None => []
  }

  /** A selector item that matches nothing in the document. */
  predicate Misses(item: SelectorItem, doc: Document, env: Env)
  {
    env.selectAll(item.selector, doc) == []
  }

  /** The fragments and the failed selectors of a run. */
  datatype Extraction = Extraction(result: seq<Extracted>, failed: seq<string>)

  /** Every selector item in order: fragments are appended, misses are recorded. */
  function Run(items: seq<SelectorItem>, doc: Document, env: Env): (x: Extraction)
    ensures |x.failed| <= |items|
    ensures |x.result| + |x.failed| >= |items|
    decreases |items|
  {
    if |items| == 0 then Extraction([], [])
    else
      var prev := Run(items[..|items| - 1], doc, env);
      var last := items[|items| - 1];
      var out := Emit(last, doc, env);
      Extraction(prev.result + out, prev.failed + if out == [] then [last.selector] else [])
  }

  /** `f` is what one of `items` extracts from `f.element`. */
  predicate FromItems(items: seq<SelectorItem>, f: Extracted, env: Env)
  {
    exists i :: 0 <= i < |items| && f == Fragment(items[i], f.element, env)
  }

  /** Every fragment of a run is the fragment of one of the run's items for its element. */
  lemma {:induction false} RunProvenance(items: seq<SelectorItem>, doc: Document, env: Env)
    ensures forall f :: f in Run(items, doc, env).result ==> FromItems(items, f, env)
    decreases |items|
  {
    if |items| > 0 {
      var init, last := items[..|items| - 1], items[|items| - 1];
      var prev, out := Run(init, doc, env), Emit(last, doc, env);
      var x := Run(items, doc, env);
      assert x.result == prev.result + out;
      RunProvenance(init, doc, env);
      forall f | f in x.result
        ensures FromItems(items, f, env)
      {
        if f in prev.result {
          var i :| 0 <= i < |init| && f == Fragment(init[i], f.element, env);
          assert init[i] == items[i];
        } else {
          assert f in out;
          assert f == Fragment(items[|items| - 1], f.element, env);
        }
      }
    }
  }

  /** A selector is recorded as failed exactly when some item with that selector matches
      nothing; each item either fails or emits, and a non-"all" item emits at most one
      fragment. */
  lemma {:induction false} RunFailures(items: seq<SelectorItem>, doc: Document, env: Env)
    ensures var x := Run(items, doc, env);
      forall s :: s in x.failed <==> exists i :: 0 <= i < |items| && items[i].selector == s && Misses(items[i], doc, env)
    ensures var x := Run(items, doc, env);
      |x.result| + |x.failed| >= |items|
    ensures var x := Run(items, doc, env);
      (forall i :: 0 <= i < |items| ==> !items[i].all) ==> |x.result| + |x.failed| == |items|
    decreases |items|
  {
    if |items| > 0 {
      var init := items[..|items| - 1];
      RunFailures(init, doc, env);
      assert forall i :: 0 <= i < |init| ==> init[i] == items[i];
    }
  }

  /** Running a concatenation runs its halves one after the other. */
  lemma {:induction false} RunConcat(a: seq<SelectorItem>, b: seq<SelectorItem>, doc: Document, env: Env)
    ensures Run(a + b, doc, env)
      == Extraction(Run(a, doc, env).result + Run(b, doc, env).result, Run(a, doc, env).failed + Run(b, doc, env).failed)
    decreases |b|
  {
    if |b| == 0 {
      assert a + b == a;
    } else {
      var b', last := b[..|b| - 1], b[|b| - 1];
      assert (a + b)[..|a + b| - 1] == a + b';
      assert (a + b)[|a + b| - 1] == last;
      RunConcat(a, b', doc, env);
      var ra, rb' := Run(a, doc, env), Run(b', doc, env);
      var out := Emit(last, doc, env);
      var miss: seq<string> := if out == [] then [last.selector] else [];
      assert Run(a + b, doc, env) == Extraction((ra.result + rb'.result) + out, (ra.failed + rb'.failed) + miss);
      assert Run(b, doc, env) == Extraction(rb'.result + out, rb'.failed + miss);
      AppendAssoc(ra.result, rb'.result, out);
      AppendAssoc(ra.failed, rb'.failed, miss);
    }
  }

  lemma AppendAssoc<T>(x: seq<T>, y: seq<T>, z: seq<T>)
    ensures (x + y) + z == x + (y + z)
  {
  }

  /** Each item contributes, in its own place, exactly what it emits and, when it matches
      nothing, its selector among the failures. */
  lemma RunSplit(a: seq<SelectorItem>, x: SelectorItem, b: seq<SelectorItem>, doc: Document, env: Env)
    ensures var ra, rb := Run(a, doc, env), Run(b, doc, env);
      Run(a + [x] + b, doc, env) == Extraction(
        ra.result + Emit(x, doc, env) + rb.result,
        ra.failed + (if Misses(x, doc, env) then [x.selector] else []) + rb.failed)
  {
    var out := Emit(x, doc, env);
    var miss: seq<string> := if Misses(x, doc, env) then [x.selector] else [];
    assert [x][..0] == [];
    assert Run([x], doc, env) == Extraction(out, miss);
    RunConcat(a, [x], doc, env);
    var ra := Run(a, doc, env);
    assert Run(a + [x], doc, env) == Extraction(ra.result + out, ra.failed + miss);
    RunConcat(a + [x], b, doc, env);
  }

  /** A selector that matches nothing is recorded as failed, in its place, and the
      fragments of every other selector are still emitted. */
  lemma MissIsNotFatal(a: seq<SelectorItem>, miss: SelectorItem, b: seq<SelectorItem>, doc: Document, env: Env)
    requires Misses(miss, doc, env)
    ensures Run(a + [miss] + b, doc, env).result == Run(a, doc, env).result + Run(b, doc, env).result
    ensures Run(a + [miss] + b, doc, env).failed == Run(a, doc, env).failed + [miss.selector] + Run(b, doc, env).failed
  {
    assert [miss][..0] == [];
    assert Run([miss], doc, env) == Extraction([], [miss.selector]);
    RunConcat(a, [miss], doc, env);
    var ra := Run(a, doc, env);
    assert Run(a + [miss], doc, env) == Extraction(ra.result, ra.failed + [miss.selector]);
    RunConcat(a + [miss], b, doc, env);
  }

  // ---------------------------------------------------------------------------
  // Steps 4 and 5: warnings, assembly and digest
  // ---------------------------------------------------------------------------

  const FailedPrefix: string := "Select element failed for selector(s): "

  /** The separator between content segments in the digested text. */
  const ContentSeparator: string := "\n\n\n\n"

  /** Each failed selector between backticks. */
  function Quoted(failed: seq<string>): (r: seq<string>)
    ensures |r| == |failed|
    ensures forall i :: 0 <= i < |r| ==> r[i] == "`" + failed[i] + "`"
  {
    seq(|failed|, i requires 0 <= i < |failed| => "`" + failed[i] + "`")
  }

  /** The summary warning listing the failed selectors in processing order. */
  function FailureWarning(failed: seq<string>): (w: string)
    ensures FailedPrefix <= w
    ensures |failed| > 0 ==> "`" + failed[0] + "`" <= w[|FailedPrefix|..]
    ensures |failed| == 1 ==> w == FailedPrefix + "`" + failed[0] + "`"
  {
    var quoted := Quoted(failed);
    var w := FailedPrefix + Join(quoted, ", ");
    assert w[|FailedPrefix|..] == Join(quoted, ", ");
    w
  }

  /** One more failed selector extends the summary by a comma, a space and that selector
      between backticks; with the single-selector case this fixes the whole text. */
  lemma FailureWarningAppend(failed: seq<string>, s: string)
    requires |failed| > 0
    ensures FailureWarning(failed + [s]) == FailureWarning(failed) + ", `" + s + "`"
  {
    var q, last := Quoted(failed), "`" + s + "`";
    QuotedAppend(failed, s);
    JoinAppend(q, last, ", ");
    var j := Join(q, ", ");
    calc {
      FailureWarning(failed + [s]);
      FailedPrefix + Join(q + [last], ", ");
      FailedPrefix + (j + ", " + last);
      { AppendAssoc(FailedPrefix, j + ", ", last); AppendAssoc(FailedPrefix, j, ", "); }
      FailedPrefix + j + ", " + last;
      FailureWarning(failed) + ", " + last;
      { AppendAssoc(FailureWarning(failed), ", ", last); assert ", " + last == ", `" + s + "`"; }
      FailureWarning(failed) + ", `" + s + "`";
    }
  }

  lemma QuotedAppend(failed: seq<string>, s: string)
    ensures Quoted(failed + [s]) == Quoted(failed) + ["`" + s + "`"]
  {
  }

  /** The fallback warning and a failure warning are never confused. */
  lemma WarningsDiffer(failed: seq<string>)
    ensures FailureWarning(failed) != FallbackWarning
  {
    assert FailureWarning(failed)[0] == FailedPrefix[0] == 'S';
    assert FallbackWarning[0] == 'N';
  }

  /** What `process(url, buffer)` returns. */
  datatype Processed = Processed(result: seq<Extracted>, failed: seq<string>, warning: seq<string>)

  /** The whole extraction pipeline for one URL and buffer. */
  function Process(options: Options, env: Env, url: string, buffer: seq<byte>): (p: Processed)
    ensures |p.warning| <= 2
    ensures forall k :: 0 <= k < |p.warning| ==> p.warning[k] == FallbackWarning || p.warning[k] == FailureWarning(p.failed)
    ensures |p.failed| > 0 ==> |p.warning| > 0 && p.warning[|p.warning| - 1] == FailureWarning(p.failed)
  {
    var plan := WithFallback(Gather(Rules(options), url, env));
    var x := Run(plan.selectors, env.parse(buffer), env);
    var summary: seq<string> := if |x.failed| > 0 then [FailureWarning(x.failed)] else [];
    assert |plan.warning| <= 1 && forall k :: 0 <= k < |plan.warning| ==> plan.warning[k] == FallbackWarning;
    Processed(x.result, x.failed, plan.warning + summary)
  }

  /** At most two warnings: the fallback warning first, exactly when the fallback was
      needed, and the failure summary last, exactly when some selector failed. */
  lemma ProcessWarnings(options: Options, env: Env, url: string, buffer: seq<byte>)
    ensures var p := Process(options, env, url, buffer);
      var gathered := Gather(Rules(options), url, env);
      && |p.warning| == (if NeedsFallback(gathered) then 1 else 0) + (if |p.failed| > 0 then 1 else 0)
      && (NeedsFallback(gathered) <==> |p.warning| > 0 && p.warning[0] == FallbackWarning)
      && (|p.failed| > 0 <==> |p.warning| > 0 && p.warning[|p.warning| - 1] == FailureWarning(p.failed))
      && (p.warning == [] <==> !NeedsFallback(gathered) && p.failed == [])
  {
    var p := Process(options, env, url, buffer);
    WarningsDiffer(p.failed);
  }

  /** Every fragment comes from a gathered selector or from the fallback; when the user
      supplied a text selector, the run is exactly the run of the gathered selectors. */
  lemma ProcessProvenance(options: Options, env: Env, url: string, buffer: seq<byte>)
    ensures var p := Process(options, env, url, buffer);
      var gathered := Gather(Rules(options), url, env);
      forall k :: 0 <= k < |p.result| ==>
        p.result[k].selector == FallbackSelector.selector || exists s :: s in gathered && p.result[k].selector == s.selector
    ensures var p := Process(options, env, url, buffer);
      var gathered := Gather(Rules(options), url, env);
      !NeedsFallback(gathered) ==> Extraction(p.result, p.failed) == Run(gathered, env.parse(buffer), env)
  {
    var gathered := Gather(Rules(options), url, env);
    var plan := WithFallback(gathered);
    var x := Run(plan.selectors, env.parse(buffer), env);
    RunProvenance(plan.selectors, env.parse(buffer), env);
    forall k | 0 <= k < |x.result|
      ensures x.result[k].selector == FallbackSelector.selector || exists s :: s in gathered && x.result[k].selector == s.selector
    {
      assert x.result[k] in x.result;
      var i :| 0 <= i < |plan.selectors| && x.result[k] == Fragment(plan.selectors[i], x.result[k].element, env);
      if i < |gathered| {
        assert plan.selectors[i] == gathered[i];
      }
    }
  }

  // ---------------------------------------------------------------------------
  // The loops of `process`, statement by statement
  // ---------------------------------------------------------------------------

  /** The nested `for` loops that push the selectors of each matching rule. */
  method GatherLoop(rules: seq<Rule>, url: string, env: Env) returns (selectors: seq<SelectorItem>)
    ensures selectors == Gather(rules, url, env)
  {
    selectors := [];
    for i := 0 to |rules|
      invariant selectors == Gather(rules[..i], url, env)
    {
      assert rules[..i + 1][..i] == rules[..i];
      if env.urlMatches(rules[i].url, url) {
        ghost var before := selectors;
        for j := 0 to |rules[i].selectors|
          invariant selectors == before + rules[i].selectors[..j]
        {
          selectors := selectors + [rules[i].selectors[j]];
        }
        assert rules[i].selectors[..|rules[i].selectors|] == rules[i].selectors;
      }
    }
    assert rules[..|rules|] == rules;
  }

  /** The search for the first text-extracting item, reporting only whether one exists. */
  method FindText(selectors: seq<SelectorItem>) returns (found: bool)
    ensures found <==> HasTextSelector(selectors)
  {
    found := false;
    var i := 0;
    while i < |selectors| && !found
      invariant 0 <= i <= |selectors|
      invariant found ==> HasTextSelector(selectors)
      invariant !found ==> forall j :: 0 <= j < i ==> !IsTextKind(selectors[j].kind)
    {
      found := IsTextKind(selectors[i].kind);
      i := i + 1;
    }
  }

  /** The `for` loop over the selectors, pushing results and failed selectors. */
  method RunLoop(selectors: seq<SelectorItem>, root: Document, env: Env) returns (result: seq<Extracted>, failed: seq<string>)
    ensures Extraction(result, failed) == Run(selectors, root, env)
  {
    result, failed := [], [];
    for k := 0 to |selectors|
      invariant Extraction(result, failed) == Run(selectors[..k], root, env)
    {
      var item := selectors[k];
      assert selectors[..k + 1][..k] == selectors[..k];
      assert selectors[..k + 1][k] == item;
      ghost var emitted := Emit(item, root, env);
      ghost var miss: seq<string> := if emitted == [] then [item.selector] else [];
      assert Run(selectors[..k + 1], root, env) == Extraction(result + emitted, failed + miss);
      if item.all {
        var elements := env.selectAll(item.selector, root);
        if |elements| > 0 {
          ghost var before := result;
          for e := 0 to |elements|
            invariant result == before + emitted[..e]
          {
            result := result + [Fragment(item, elements[e], env)];
          }
          assert emitted[..|elements|] == emitted;
        } else {
          failed := failed + [item.selector];
        }
      } else {
        var element := Select(env, item.selector, root);
        if element.Some? {
          result := result + [Fragment(item, element.value, env)];
        } else {
          failed := failed + [item.selector];
        }
      }
    }
    assert selectors[..|selectors|] == selectors;
  }

  /** The extraction pipeline written imperatively: growing selector, result, failure and
      warning lists, updated in the same order as the functional pipeline applies them. */
  method ProcessLoop(options: Options, env: Env, url: string, buffer: seq<byte>) returns (p: Processed)
    ensures p == Process(options, env, url, buffer)
  {
    var selectors := GatherLoop(Rules(options), url, env);
    ghost var gathered := selectors;
    var warning: seq<string> := [];
    var hasText := FindText(selectors);
    if |selectors| == 0 || !hasText {
      selectors := selectors + [FallbackSelector];
      warning := warning + [FallbackWarning];
    }
    assert Plan(selectors, warning) == WithFallback(gathered);
    var root := env.parse(buffer);
    var result, failed := RunLoop(selectors, root, env);
    if |failed| > 0 {
      warning := warning + [FailureWarning(failed)];
    }
    p := Processed(result, failed, warning);
  }

  /** The source position of a fragment, recorded beside its selector. */
  datatype Partition = Partition(selector: string, position: Option<Span>)

  datatype Metadata = Metadata(partitions: seq<Partition>, warning: Option<seq<string>>)

  /** The loader's result: the segments, their digest and their provenance. */
  datatype Content = Content(content: seq<string>, digest: string, metadata: Metadata)

  /** `load(buffer, url)` */
  function Load(options: Options, env: Env, buffer: seq<byte>, url: string): (c: Content)
    ensures |c.content| == |c.metadata.partitions|
    ensures var p := Process(options, env, url, buffer);
      && |c.content| == |p.result|
      && forall i :: 0 <= i < |p.result| ==>
           c.content[i] == p.result[i].content
           && c.metadata.partitions[i] == Partition(p.result[i].selector, p.result[i].element.position)
    ensures c.digest == env.md5(Join(c.content, ContentSeparator))
    ensures var p := Process(options, env, url, buffer);
      && (c.metadata.warning.None? <==> p.warning == [])
      && (c.metadata.warning.Some? ==> c.metadata.warning.value == p.warning)
  {
    var p := Process(options, env, url, buffer);
    var content := seq(|p.result|, i requires 0 <= i < |p.result| => p.result[i].content);
    var partitions := seq(|p.result|, i requires 0 <= i < |p.result| =>
      Partition(p.result[i].selector, p.result[i].element.position));
    Content(
      content,
      env.md5(Join(content, ContentSeparator)),
      Metadata(partitions, if |p.warning| > 0 then Some(p.warning) else None))
  }

  /** `support(mime)`: the `/html/` test. */
  function Support(mime: string): (b: bool)
    ensures b <==> Contains(mime, "html")
  {
    HasSubstring(mime, "html")
  }
}
