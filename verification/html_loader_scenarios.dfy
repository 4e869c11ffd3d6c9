/**
 Whole-pipeline consequences of the HTML loader model: the fallback when no rule
 applies, a single text selector, and an attribute selector.
 */
module HtmlLoaderScenarios {
  import opened Wrappers
  import opened Text
  import opened HtmlLoader

  /** No rule accepts the URL: nothing is gathered. */
  lemma {:induction false} NoMatchingRuleGathersNothing(rules: seq<Rule>, url: string, env: Env)
    requires forall i :: 0 <= i < |rules| ==> !env.urlMatches(rules[i].url, url)
    ensures Gather(rules, url, env) == []
    decreases |rules|
  {
    if |rules| > 0 {
      var init := rules[..|rules| - 1];
      assert forall i :: 0 <= i < |init| ==> init[i] == rules[i];
      NoMatchingRuleGathersNothing(init, url, env);
    }
  }

  /** The one fragment a first-match item emits when its selector matches `e`. */
  lemma RunOne(item: SelectorItem, doc: Document, env: Env, e: Element)
    requires !item.all && Select(env, item.selector, doc) == Some(e)
    ensures Run([item], doc, env) == Extraction([Fragment(item, e, env)], [])
  {
  }

  /** What `Load` makes of a run with one fragment. */
  lemma LoadOfOne(options: Options, env: Env, buffer: seq<byte>, url: string, f: Extracted)
    requires Process(options, env, url, buffer).result == [f]
    ensures Load(options, env, buffer, url).content == [f.content]
    ensures Load(options, env, buffer, url).metadata.partitions == [Partition(f.selector, f.element.position)]
    ensures Load(options, env, buffer, url).digest == env.md5(f.content)
  {
  }

  /** With no applicable rule, the loader extracts the text of `body` alone and reports
      the fallback warning, and nothing else. */
  lemma FallbackWhenNoRuleApplies(options: Options, env: Env, buffer: seq<byte>, url: string, body: Element)
    requires forall i :: 0 <= i < |Rules(options)| ==> !env.urlMatches(Rules(options)[i].url, url)
    requires Select(env, "body", env.parse(buffer)) == Some(body)
    ensures var c := Load(options, env, buffer, url);
      && c.content == [env.toText(body)]
      && c.metadata.partitions == [Partition("body", body.position)]
      && c.metadata.warning == Some([FallbackWarning])
      && c.digest == env.md5(env.toText(body))
  {
    NoMatchingRuleGathersNothing(Rules(options), url, env);
    assert WithFallback([]) == Plan([FallbackSelector], [FallbackWarning]);
    var f := Fragment(FallbackSelector, body, env);
    RunOne(FallbackSelector, env.parse(buffer), env, body);
    assert Process(options, env, url, buffer) == Processed([f], [], [FallbackWarning]);
    LoadOfOne(options, env, buffer, url, f);
  }

  /** With no applicable rule and no `body` in the document, nothing is extracted and
      both warnings are reported, the fallback one first. */
  lemma FallbackWithoutBody(options: Options, env: Env, buffer: seq<byte>, url: string)
    requires forall i :: 0 <= i < |Rules(options)| ==> !env.urlMatches(Rules(options)[i].url, url)
    requires Select(env, "body", env.parse(buffer)).None?
    ensures var c := Load(options, env, buffer, url);
      && c.content == []
      && c.metadata.partitions == []
      && c.metadata.warning == Some([FallbackWarning, FailedPrefix + "`body`"])
      && c.digest == env.md5("")
  {
    NoMatchingRuleGathersNothing(Rules(options), url, env);
    assert WithFallback([]) == Plan([FallbackSelector], [FallbackWarning]);
    assert [FallbackSelector][..0] == [];
    assert Run([FallbackSelector], env.parse(buffer), env) == Extraction([], ["body"]);
    assert FailedPrefix + "`" + "body" + "`" == FailedPrefix + "`body`";
    var p := Process(options, env, url, buffer);
    assert p == Processed([], ["body"], [FallbackWarning, FailedPrefix + "`body`"]);
    var c := Load(options, env, buffer, url);
    assert |c.content| == 0 && |c.metadata.partitions| == 0;
  }

  /** One applicable rule with one first-match text selector that matches: exactly one
      segment, the element's text, with no warning. */
  lemma SingleTextSelector(env: Env, buffer: seq<byte>, url: string, pattern: string, selector: string, e: Element)
    requires env.urlMatches(pattern, url)
    requires Select(env, selector, env.parse(buffer)) == Some(e)
    ensures var options := Options(Some([Rule(pattern, [SelectorItem(selector, false, Some(DomText))])]));
      var c := Load(options, env, buffer, url);
      && c.content == [env.toText(e)]
      && c.metadata.partitions == [Partition(selector, e.position)]
      && c.metadata.warning.None?
      && c.digest == env.md5(env.toText(e))
  {
    var item := SelectorItem(selector, false, Some(DomText));
    var options := Options(Some([Rule(pattern, [item])]));
    assert Rules(options)[..0] == [];
    assert Gather(Rules(options), url, env) == [item];
    assert !NeedsFallback([item]) by {
      assert IsTextKind([item][0].kind);
    }
    RunOne(item, env.parse(buffer), env, e);
    var f := Fragment(item, e, env);
    assert Process(options, env, url, buffer) == Processed([f], [], []);
    LoadOfOne(options, env, buffer, url, f);
  }

  /** A rule whose only selector reads the `content` attribute yields that attribute's
      value first; since it is not a text selector, the `body` fallback still runs after
      it and its warning is reported. */
  lemma AttributeSelectorStillFallsBack(env: Env, buffer: seq<byte>, url: string, pattern: string, selector: string, meta: Element, body: Element)
    requires env.urlMatches(pattern, url)
    requires Select(env, selector, env.parse(buffer)) == Some(meta)
    requires "content" in meta.properties
    requires Select(env, "body", env.parse(buffer)) == Some(body)
    ensures var options := Options(Some([Rule(pattern, [SelectorItem(selector, false, Some(DomContentAttr))])]));
      var c := Load(options, env, buffer, url);
      && c.content == [meta.properties["content"], env.toText(body)]
      && c.metadata.warning == Some([FallbackWarning])
  {
    var item := SelectorItem(selector, false, Some(DomContentAttr));
    var options := Options(Some([Rule(pattern, [item])]));
    var doc := env.parse(buffer);
    assert Rules(options)[..0] == [];
    assert Gather(Rules(options), url, env) == [item];
    assert !IsTextKind([item][0].kind);
    assert NeedsFallback([item]);
    var plan := [item, FallbackSelector];
    assert WithFallback([item]) == Plan(plan, [FallbackWarning]);
    RunOne(item, doc, env, meta);
    RunOne(FallbackSelector, doc, env, body);
    RunConcat([item], [FallbackSelector], doc, env);
    var f, g := Fragment(item, meta, env), Fragment(FallbackSelector, body, env);
    assert [item] + [FallbackSelector] == plan;
    assert Process(options, env, url, buffer) == Processed([f, g], [], [FallbackWarning]);
    var c := Load(options, env, buffer, url);
    assert c.content[0] == meta.properties["content"] && c.content[1] == env.toText(body);
  }
}
