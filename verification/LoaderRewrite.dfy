/** The two global replacements that make the WebAssembly loader web-only, and the build step
    that applies them to every loader variant. */
module LoaderRewrite {
  import opened Wrappers

  /** A literal and what replaces it. */
  datatype Rule = Rule(from: string, to: string)

  function NodeRule(name: string): Rule {
    Rule("node:" + name, "web-only-disabled:" + name)
  }

  /** The alternation of the first pass, in its order. */
  const NODE: seq<Rule> := [
    NodeRule("module"), NodeRule("worker_threads"), NodeRule("fs"),
    NodeRule("path"), NodeRule("url"), NodeRule("util")]

  const PROCESS: seq<Rule> := [Rule("globalThis.process", "undefined")]

  /** The first rule whose literal starts `s`. */
  function Match(s: string, rules: seq<Rule>): (r: Option<Rule>)
    ensures r.Some? ==> r.value in rules && r.value.from <= s
    ensures r.None? ==> forall rule <- rules :: !(rule.from <= s)
  {
    if rules == [] then None
    else
      assert rules == [rules[0]] + rules[1..];
      if rules[0].from <= s then Some(rules[0]) else Match(s, rules[1..])
  }

  /** Literals have at least two characters and are never replaced by nothing. */
  predicate Proper(rules: seq<Rule>) {
    forall rule <- rules :: |rule.from| >= 2 && |rule.to| >= 2
  }

  /** Global replacement: leftmost matches, left to right, never looking at replaced text again. */
  function ReplaceAll(s: string, rules: seq<Rule>): string
    requires Proper(rules)
    decreases |s|
  {
    if s == "" then ""
    else match Match(s, rules)
         case Some(rule) => rule.to + ReplaceAll(s[|rule.from|..], rules)
         case None => [s[0]] + ReplaceAll(s[1..], rules)
  }

  /** The rewritten loader: the second pass reads what the first one wrote. */
  function Rewrite(s: string): string {
    ReplaceAll(ReplaceAll(s, NODE), PROCESS)
  }

  ghost predicate Occurs(s: string, w: string) {
    exists i | 0 <= i <= |s| :: w <= s[i..]
  }

  ghost predicate Clean(s: string, rules: seq<Rule>) {
    forall rule <- rules :: !Occurs(s, rule.from)
  }

  // ---------- when one text cannot meet another ----------

  /** `c` never stands at the end of `t` nor before `d` in it, from position `k` on. */
  predicate NeverBefore(t: string, c: char, d: char, k: nat) {
    forall i | k <= i < |t| :: t[i] == c ==> i + 1 < |t| && t[i + 1] != d
  }

  /** No copy of `w` begins inside `t`, not even one that runs past its end. */
  predicate NoStart(t: string, w: string)
    requires |w| >= 2
  {
    NeverBefore(t, w[0], w[1], 0)
  }

  /** No copy of `w` that has begun runs into a copy of `t`. */
  predicate NoEntry(t: string, w: string)
    requires |t| >= 2
  {
    NeverBefore(w, t[0], t[1], 1)
  }

  /** Replacing by `rules` makes no new copy of `w`. */
  ghost predicate Inert(rules: seq<Rule>, w: string)
    requires Proper(rules)
  {
    |w| >= 2 && forall rule <- rules :: NoStart(rule.to, w) && NoEntry(rule.to, w)
  }

  lemma NoStartMeans(t: string, x: string, w: string, i: nat)
    requires |w| >= 2 && NoStart(t, w) && i < |t|
    ensures !(w <= (t + x)[i..])
  {
    var d := if t[i] != w[0] then 0 else 1;
    assert (t + x)[i..][d] != w[d];
  }

  lemma NoEntryMeans(t: string, x: string, w: string, k: nat)
    requires |t| >= 2 && NoEntry(t, w) && 0 < k < |w|
    ensures !(w[k..] <= t + x)
  {
    var d := if w[k] != t[0] then 0 else 1;
    assert (t + x)[d] != w[k..][d];
  }

  lemma OccursLater(s: string, t: string, w: string, i: nat)
    requires i <= |s| && s[i..] == t && Occurs(t, w)
    ensures Occurs(s, w)
  {
    var j :| 0 <= j <= |t| && w <= t[j..];
    assert s[i + j..] == t[j..];
  }

  /** The rest of a begun copy of `w` can only have been copied from the source. */
  lemma {:induction false} RestIsCopied(s: string, rules: seq<Rule>, w: string, k: nat)
    requires Proper(rules) && Inert(rules, w) && 0 < k <= |w| && w[k..] <= ReplaceAll(s, rules)
    ensures w[k..] <= s
    decreases |w| - k
  {
    hide NeverBefore;
    if k < |w| {
      assert w[k..] != "";
      forall rule <- rules, x: string ensures !(w[k..] <= rule.to + x) {
        NoEntryMeans(rule.to, x, w, k);
      }
      assert Match(s, rules).None?;
      var out := ReplaceAll(s[1..], rules);
      assert w[k..] == [w[k]] + w[k + 1..] && s == [s[0]] + s[1..] && ReplaceAll(s, rules) == [s[0]] + out;
      assert w[k + 1..] <= out by { assert w[k..][1..] == w[k + 1..]; }
      RestIsCopied(s[1..], rules, w, k + 1);
    }
  }

  /** A copy of `w` at the front of the output was at the front of the source. */
  lemma FrontIsCopied(s: string, rules: seq<Rule>, w: string)
    requires Proper(rules) && Inert(rules, w) && w <= ReplaceAll(s, rules)
    ensures w <= s && Match(s, rules).None?
  {
    hide NeverBefore;
    forall rule <- rules, x: string ensures !(w <= rule.to + x) {
      NoStartMeans(rule.to, x, w, 0);
      assert (rule.to + x)[0..] == rule.to + x;
    }
    assert Match(s, rules).None?;
    var out := ReplaceAll(s[1..], rules);
    assert w == [w[0]] + w[1..] && s == [s[0]] + s[1..] && ReplaceAll(s, rules) == [s[0]] + out;
    assert w[1..] <= out;
    RestIsCopied(s[1..], rules, w, 1);
  }

  /** Whatever the output contains of `w` was in the source at a place no rule touched. */
  lemma {:induction false} OccurrencesAreCopied(s: string, rules: seq<Rule>, w: string, i: nat) returns (j: nat)
    requires Proper(rules) && Inert(rules, w) && i <= |ReplaceAll(s, rules)| && w <= ReplaceAll(s, rules)[i..]
    ensures j <= |s| && w <= s[j..] && Match(s[j..], rules).None?
    decreases |s|
  {
    hide NeverBefore, Match, NoStart, NoEntry;
    var out := ReplaceAll(s, rules);
    if i == 0 {
      assert out[0..] == out;
      FrontIsCopied(s, rules, w);
      j := 0;
      assert s[0..] == s;
    } else {
      forall rule <- rules, x: string | i < |rule.to| ensures !(w <= (rule.to + x)[i..]) {
        NoStartMeans(rule.to, x, w, i);
      }
      var m := Match(s, rules);
      var eaten, made := if m.Some? then |m.value.from| else 1, if m.Some? then |m.value.to| else 1;
      assert i >= made;
      var rest := s[eaten..];
      assert out[i..] == ReplaceAll(rest, rules)[i - made..];
      j := OccurrencesAreCopied(rest, rules, w, i - made);
      assert rest[j..] == s[eaten + j..];
      j := eaten + j;
    }
  }

  /** A pass never leaves one of its own literals behind, if its texts are inert. */
  lemma PassCleans(s: string, rules: seq<Rule>)
    requires Proper(rules) && forall rule <- rules :: Inert(rules, rule.from)
    ensures Clean(ReplaceAll(s, rules), rules)
  {
    forall rule <- rules ensures !Occurs(ReplaceAll(s, rules), rule.from) {
      forall i | 0 <= i <= |ReplaceAll(s, rules)| ensures !(rule.from <= ReplaceAll(s, rules)[i..]) {
        if rule.from <= ReplaceAll(s, rules)[i..] {
          var j := OccurrencesAreCopied(s, rules, rule.from, i);
        }
      }
    }
  }

  lemma PassCreatesNothing(s: string, rules: seq<Rule>, w: string)
    requires Proper(rules) && Inert(rules, w) && !Occurs(s, w)
    ensures !Occurs(ReplaceAll(s, rules), w)
  {
    if Occurs(ReplaceAll(s, rules), w) {
      var i :| 0 <= i <= |ReplaceAll(s, rules)| && w <= ReplaceAll(s, rules)[i..];
      var j := OccurrencesAreCopied(s, rules, w, i);
    }
  }

  lemma {:induction false} CleanIsKept(s: string, rules: seq<Rule>)
    requires Proper(rules) && Clean(s, rules)
    ensures ReplaceAll(s, rules) == s
    decreases |s|
  {
    if s != "" {
      assert s[0..] == s;
      forall rule <- rules ensures !Occurs(s[1..], rule.from) {
        if Occurs(s[1..], rule.from) {
          OccursLater(s, s[1..], rule.from, 1);
        }
      }
      CleanIsKept(s[1..], rules);
      assert Match(s, rules).None?;
    }
  }

  // ---------- the loader's own literals ----------

  /** What keeps the loader's literals and replacement texts out of each other's way. */
  predicate Harmless(rule: Rule) {
    && |rule.from| >= 2 && |rule.to| >= 2
    && NeverBefore(rule.to, 'n', 'o', 0) && NeverBefore(rule.to, 'g', 'l', 0)
    && NeverBefore(rule.from, 'w', 'e', 1) && NeverBefore(rule.from, 'u', 'n', 1)
  }

  lemma NeverBeforeConcat(a: string, b: string, c: char, d: char, k: nat)
    requires NeverBefore(a, c, d, k) && NeverBefore(b, c, d, 0) && k <= |a|
    ensures NeverBefore(a + b, c, d, k)
  {
  }

  /** A module name puts no `n` before an `o`, no `g` before an `l`, and so on. */
  predicate PlainName(name: string) {
    && NeverBefore(name, 'n', 'o', 0) && NeverBefore(name, 'g', 'l', 0)
    && NeverBefore(name, 'w', 'e', 0) && NeverBefore(name, 'u', 'n', 0)
  }

  lemma NodeRuleIsHarmless(name: string)
    requires PlainName(name)
    ensures Harmless(NodeRule(name))
  {
    var a, b := "node:", "web-only-disabled:";
    assert NeverBefore(b, 'n', 'o', 0) && NeverBefore(b, 'g', 'l', 0);
    assert NeverBefore(a, 'w', 'e', 1) && NeverBefore(a, 'u', 'n', 1);
    hide NeverBefore;
    NeverBeforeConcat(b, name, 'n', 'o', 0);
    NeverBeforeConcat(b, name, 'g', 'l', 0);
    NeverBeforeConcat(a, name, 'w', 'e', 1);
    NeverBeforeConcat(a, name, 'u', 'n', 1);
  }

  lemma ShortNamesArePlain()
    ensures PlainName("module") && PlainName("fs") && PlainName("path") && PlainName("url") && PlainName("util")
  {
  }

  lemma LongNameIsPlain()
    ensures PlainName("worker_threads")
  {
  }

  lemma ProcessRuleIsHarmless()
    ensures Harmless(PROCESS[0])
  {
  }

  lemma LoaderTextsAreHarmless()
    ensures forall rule <- NODE + PROCESS :: Harmless(rule)
  {
    hide Harmless, PlainName, NodeRule;
    ShortNamesArePlain();
    LongNameIsPlain();
    ProcessRuleIsHarmless();
    NodeRuleIsHarmless("module");
    NodeRuleIsHarmless("worker_threads");
    NodeRuleIsHarmless("fs");
    NodeRuleIsHarmless("path");
    NodeRuleIsHarmless("url");
    NodeRuleIsHarmless("util");
  }

  /** The first two characters of a rule's literal and of its replacement. */
  predicate Begins(rule: Rule, from: string, to: string) {
    && |rule.from| >= 2 && |rule.to| >= 2 && |from| == 2 && |to| == 2
    && rule.from[0] == from[0] && rule.from[1] == from[1]
    && rule.to[0] == to[0] && rule.to[1] == to[1]
  }

  lemma NodeRuleBegins(name: string)
    ensures Begins(NodeRule(name), "no", "we")
  {
  }

  lemma ProcessRuleBegins()
    ensures Begins(PROCESS[0], "gl", "un")
  {
  }

  lemma LoaderTextsBegin()
    ensures forall rule <- NODE :: Begins(rule, "no", "we")
    ensures forall rule <- PROCESS :: Begins(rule, "gl", "un")
  {
    hide Begins, NodeRule;
    ProcessRuleBegins();
    NodeRuleBegins("module");
    NodeRuleBegins("worker_threads");
    NodeRuleBegins("fs");
    NodeRuleBegins("path");
    NodeRuleBegins("url");
    NodeRuleBegins("util");
  }

  lemma LoaderTextsAreInert()
    ensures Proper(NODE) && Proper(PROCESS)
    ensures forall rule <- NODE :: Inert(NODE, rule.from) && Inert(PROCESS, rule.from)
    ensures forall rule <- PROCESS :: Inert(NODE, rule.from) && Inert(PROCESS, rule.from)
  {
    hide NeverBefore, NodeRule;
    LoaderTextsAreHarmless();
    LoaderTextsBegin();
    assert forall t <- NODE + PROCESS, w <- NODE + PROCESS :: NoStart(t.to, w.from) && NoEntry(t.to, w.from);
  }

  /** For every source text, no `node:` import of the six modules and no `globalThis.process`
      survives both passes. */
  lemma RewriteIsClean(s: string)
    ensures Clean(Rewrite(s), NODE) && Clean(Rewrite(s), PROCESS)
  {
    LoaderTextsAreInert();
    var once := ReplaceAll(s, NODE);
    PassCleans(s, NODE);
    PassCleans(once, PROCESS);
    forall rule <- NODE ensures !Occurs(Rewrite(s), rule.from) {
      PassCreatesNothing(once, PROCESS, rule.from);
    }
  }

  /** The rewrite leaves a loader alone exactly when it is web-only already. */
  lemma RewriteKeepsExactlyCleanText(s: string)
    ensures Rewrite(s) == s <==> Clean(s, NODE) && Clean(s, PROCESS)
  {
    LoaderTextsAreInert();
    RewriteIsClean(s);
    if Clean(s, NODE) && Clean(s, PROCESS) {
      CleanIsKept(s, NODE);
      CleanIsKept(s, PROCESS);
    }
  }

  lemma RewriteIsIdempotent(s: string)
    ensures Rewrite(Rewrite(s)) == Rewrite(s)
  {
    RewriteIsClean(s);
    RewriteKeepsExactlyCleanText(Rewrite(s));
  }

  // ---------- the order of the passes ----------

  lemma {:induction false} MatchConcat(s: string, a: seq<Rule>, b: seq<Rule>)
    ensures Match(s, a + b) == if Match(s, a).Some? then Match(s, a) else Match(s, b)
  {
    if a == [] {
      assert a + b == b;
    } else {
      assert (a + b)[1..] == a[1..] + b;
      MatchConcat(s, a[1..], b);
    }
  }

  /** Text in which no literal begins goes through a pass unchanged. */
  lemma {:induction false} PassThrough(t: string, x: string, rules: seq<Rule>)
    requires Proper(rules) && forall rule <- rules :: NoStart(t, rule.from)
    ensures ReplaceAll(t + x, rules) == t + ReplaceAll(x, rules)
  {
    if t == "" {
      assert t + x == x;
    } else {
      forall rule <- rules ensures !(rule.from <= t + x) && NoStart(t[1..], rule.from) {
        NoStartMeans(t, x, rule.from, 0);
        assert (t + x)[0..] == t + x;
      }
      hide NeverBefore;
      assert Match(t + x, rules).None?;
      assert (t + x)[1..] == t[1..] + x;
      PassThrough(t[1..], x, rules);
    }
  }

  /** No literal begins another. */
  ghost predicate PrefixFree(rules: seq<Rule>) {
    forall a <- rules, b <- rules :: a.from <= b.from ==> a == b
  }

  lemma SameMatch(b: Rule, x: string, rules: seq<Rule>)
    requires PrefixFree(rules) && b in rules
    ensures Match(b.from + x, rules) == Some(b)
  {
    assert b.from <= b.from + x;
    var m := Match(b.from + x, rules).value;
    assert if |m.from| <= |b.from| then m.from <= b.from else b.from <= m.from;
  }

  /** The texts of two sets of rules keep out of each other's way. */
  ghost predicate Independent(a: seq<Rule>, b: seq<Rule>)
    requires Proper(a) && Proper(b)
  {
    forall r <- a, w <- b :: NoStart(r.to, w.from) && NoEntry(r.to, w.from) && NoStart(w.from, r.from)
  }

  /** Two independent passes are one pass with both sets of rules. */
  lemma {:induction false} PassesFuse(s: string, a: seq<Rule>, b: seq<Rule>)
    requires Proper(a) && Proper(b) && Proper(a + b) && Independent(a, b) && PrefixFree(b)
    ensures ReplaceAll(ReplaceAll(s, a), b) == ReplaceAll(s, a + b)
    decreases |s|
  {
    hide NeverBefore, PrefixFree;
    if s != "" {
      MatchConcat(s, a, b);
      if Match(s, a).Some? {
        var r := Match(s, a).value;
        PassThrough(r.to, ReplaceAll(s[|r.from|..], a), b);
        PassesFuse(s[|r.from|..], a, b);
      } else if Match(s, b).Some? {
        var w := Match(s, b).value;
        var rest := s[|w.from|..];
        assert s == w.from + rest;
        PassThrough(w.from, rest, a);
        var x := ReplaceAll(rest, a);
        SameMatch(w, x, b);
        assert (w.from + x)[|w.from|..] == x;
        PassesFuse(rest, a, b);
      } else {
        KeptStaysKept(s, a, b);
        var x := ReplaceAll(s[1..], a);
        assert ([s[0]] + x)[1..] == x;
        PassesFuse(s[1..], a, b);
      }
    }
  }

  lemma KeptStaysKept(s: string, a: seq<Rule>, b: seq<Rule>)
    requires Proper(a) && Proper(b) && Independent(a, b) && Match(s, b).None?
    ensures Match(ReplaceAll(s, a), b).None?
  {
    forall w <- b ensures !(w.from <= ReplaceAll(s, a)) {
      if w.from <= ReplaceAll(s, a) {
        FrontIsCopied(s, a, w.from);
      }
    }
  }

  lemma NodeIsPrefixFree()
    ensures PrefixFree(NODE)
  {
    forall a <- NODE, b <- NODE | a.from <= b.from ensures a == b {
      assert a.from[5] == b.from[5] && a.from[6] == b.from[6];
    }
  }

  lemma ProcessIsPrefixFree()
    ensures PrefixFree(PROCESS)
  {
  }

  lemma LoaderFirstLetters()
    ensures forall r <- NODE, w <- PROCESS :: |r.from| >= 2 && |w.from| >= 2 && r.from[0] != w.from[0]
  {
    hide NodeRule;
    LoaderTextsBegin();
  }

  lemma LoaderRulesAreIndependent()
    ensures Proper(NODE) && Proper(PROCESS) && Proper(NODE + PROCESS) && Proper(PROCESS + NODE)
    ensures Independent(NODE, PROCESS) && Independent(PROCESS, NODE)
  {
    LoaderTextsAreInert();
    LoaderTextsDoNotStart();
  }

  lemma ProcessLiteralIsQuiet()
    ensures NeverBefore(PROCESS[0].from, 'n', 'o', 0)
  {
  }

  lemma NodeLiteralIsQuiet(name: string)
    requires PlainName(name)
    ensures NeverBefore(NodeRule(name).from, 'g', 'l', 0)
  {
    assert NeverBefore("node:", 'g', 'l', 0);
    NeverBeforeConcat("node:", name, 'g', 'l', 0);
  }

  lemma LoaderTextsDoNotStart()
    ensures forall a <- NODE, b <- PROCESS ::
              |a.from| >= 2 && |b.from| >= 2 && NoStart(a.from, b.from) && NoStart(b.from, a.from)
  {
    hide NeverBefore, PlainName, NodeRule;
    ProcessLiteralIsQuiet();
    ShortNamesArePlain();
    LongNameIsPlain();
    NodeLiteralIsQuiet("module");
    NodeLiteralIsQuiet("worker_threads");
    NodeLiteralIsQuiet("fs");
    NodeLiteralIsQuiet("path");
    NodeLiteralIsQuiet("url");
    NodeLiteralIsQuiet("util");
    LoaderTextsBegin();
  }

  lemma {:induction false} RuleOrderIsFree(s: string, a: seq<Rule>, b: seq<Rule>)
    requires Proper(a + b) && Proper(b + a)
    requires forall r <- a, w <- b :: |r.from| >= 2 && |w.from| >= 2 && r.from[0] != w.from[0]
    ensures ReplaceAll(s, a + b) == ReplaceAll(s, b + a)
    decreases |s|
  {
    if s != "" {
      MatchConcat(s, a, b);
      MatchConcat(s, b, a);
      assert forall r <- a + b :: |r.from| >= 2 && (r.from <= s ==> r.from[0] == s[0]);
      var m := Match(s, a + b);
      RuleOrderIsFree(s[if m.Some? then |m.value.from| else 1..], a, b);
    }
  }

  /** The two passes of the loader commute: in either order they are one simultaneous pass. */
  lemma PassesCommute(s: string)
    ensures Rewrite(s) == ReplaceAll(s, NODE + PROCESS) == ReplaceAll(ReplaceAll(s, PROCESS), NODE)
  {
    hide Proper, Independent, PrefixFree, ReplaceAll, NodeRule;
    LoaderRulesAreIndependent();
    NodeIsPrefixFree();
    ProcessIsPrefixFree();
    PassesFuse(s, NODE, PROCESS);
    PassesFuse(s, PROCESS, NODE);
    LoaderFirstLetters();
    RuleOrderIsFree(s, NODE, PROCESS);
  }

  // ---------- the rewrite, literal by literal ----------

  lemma LoaderIsPrefixFree()
    ensures PrefixFree(NODE + PROCESS)
  {
    NodeIsPrefixFree();
    ProcessIsPrefixFree();
    LoaderFirstLetters();
    hide NodeRule;
    forall a <- NODE + PROCESS, b <- NODE + PROCESS | a.from <= b.from ensures a == b {
      assert (a in NODE || a in PROCESS) && (b in NODE || b in PROCESS);
    }
  }

  /** The modules whose imports are disabled. */
  const MODULES: seq<string> := ["module", "worker_threads", "fs", "path", "url", "util"]

  lemma NodeRulesByName()
    ensures |NODE| == |MODULES| && forall i | 0 <= i < |NODE| :: NODE[i] == NodeRule(MODULES[i])
  {
    hide NodeRule;
  }

  lemma LoaderRules()
    ensures forall rule :: rule in NODE + PROCESS <==>
              rule == Rule("globalThis.process", "undefined") || exists name <- MODULES :: rule == Rule("node:" + name, "web-only-disabled:" + name)
  {
    NodeRulesByName();
    forall rule: Rule ensures rule in NODE <==> exists name <- MODULES :: rule == NodeRule(name) {
      hide NodeRule;
      if rule in NODE {
        var i :| 0 <= i < |NODE| && NODE[i] == rule;
        assert MODULES[i] in MODULES;
      }
      if name :| name in MODULES && rule == NodeRule(name) {
        var i :| 0 <= i < |MODULES| && MODULES[i] == name;
        assert NODE[i] == rule;
      }
    }
  }

  /** One pass over a literal writes its replacement and goes on behind it. */
  lemma LiteralIsReplaced(rule: Rule, x: string)
    requires rule in NODE + PROCESS
    ensures Rewrite(rule.from + x) == rule.to + Rewrite(x)
  {
    LoaderRulesAreIndependent();
    LoaderIsPrefixFree();
    PassesCommute(rule.from + x);
    PassesCommute(x);
    hide Rewrite, NodeRule;
    SameMatch(rule, x, NODE + PROCESS);
    assert (rule.from + x)[|rule.from|..] == x;
  }

  lemma CharacterIsKept(s: string)
    requires s != "" && forall rule <- NODE + PROCESS :: !(rule.from <= s)
    ensures Rewrite(s) == [s[0]] + Rewrite(s[1..])
  {
    LoaderRulesAreIndependent();
    PassesCommute(s);
    PassesCommute(s[1..]);
    hide Rewrite, NodeRule;
    assert Match(s, NODE + PROCESS).None?;
  }

  /** The whole rewrite: each of the six imports is disabled by name, the process object becomes
      `undefined`, and every other character is copied. */
  lemma RewriteByLiterals(s: string)
    ensures MODULES == ["module", "worker_threads", "fs", "path", "url", "util"]
    ensures forall name <- MODULES :: Rewrite("node:" + name + s) == "web-only-disabled:" + name + Rewrite(s)
    ensures Rewrite("globalThis.process" + s) == "undefined" + Rewrite(s)
    ensures s != "" && !("globalThis.process" <= s) && (forall name <- MODULES :: !("node:" + name <= s)) ==>
              Rewrite(s) == [s[0]] + Rewrite(s[1..])
    ensures Rewrite("") == ""
  {
    ImportsAreDisabled(s);
    ProcessIsUndefined(s);
    if s != "" && !("globalThis.process" <= s) && (forall name <- MODULES :: !("node:" + name <= s)) {
      OthersAreCopied(s);
    }
    NothingIsRewritten();
  }

  lemma ImportsAreDisabled(s: string)
    ensures forall name <- MODULES :: Rewrite("node:" + name + s) == "web-only-disabled:" + name + Rewrite(s)
  {
    LoaderRules();
    hide Rewrite, NodeRule;
    forall name <- MODULES ensures Rewrite("node:" + name + s) == "web-only-disabled:" + name + Rewrite(s) {
      var rule := Rule("node:" + name, "web-only-disabled:" + name);
      assert rule in NODE + PROCESS;
      LiteralIsReplaced(rule, s);
    }
  }

  lemma ProcessIsUndefined(s: string)
    ensures Rewrite("globalThis.process" + s) == "undefined" + Rewrite(s)
  {
    hide Rewrite, NodeRule;
    var rule := Rule("globalThis.process", "undefined");
    assert rule in PROCESS;
    LiteralIsReplaced(rule, s);
  }

  lemma OthersAreCopied(s: string)
    requires s != "" && !("globalThis.process" <= s) && forall name <- MODULES :: !("node:" + name <= s)
    ensures Rewrite(s) == [s[0]] + Rewrite(s[1..])
  {
    LoaderRules();
    hide Rewrite, NodeRule;
    CharacterIsKept(s);
  }

  lemma NothingIsRewritten()
    ensures Rewrite("") == ""
  {
    LoaderTextsAreInert();
  }

  /** None of the seven literals is anywhere in the rewritten text. */
  lemma LiteralsAreGone(s: string)
    ensures !Occurs(Rewrite(s), "globalThis.process")
    ensures forall name <- MODULES :: !Occurs(Rewrite(s), "node:" + name)
  {
    RewriteIsClean(s);
    LoaderRules();
    hide Rewrite, NodeRule, Occurs;
    forall name <- MODULES ensures !Occurs(Rewrite(s), "node:" + name) {
      var rule := Rule("node:" + name, "web-only-disabled:" + name);
      assert rule in NODE + PROCESS;
      assert rule in NODE || rule in PROCESS;
    }
    assert Rule("globalThis.process", "undefined") in PROCESS;
  }

  // ---------- what lies between the matches ----------

  datatype Piece = Kept(c: char) | Hit(rule: Rule)

  function Pieces(s: string, rules: seq<Rule>): seq<Piece>
    requires Proper(rules)
    decreases |s|
  {
    if s == "" then []
    else match Match(s, rules)
         case Some(rule) => [Hit(rule)] + Pieces(s[|rule.from|..], rules)
         case None => [Kept(s[0])] + Pieces(s[1..], rules)
  }

  function Read(ps: seq<Piece>): string {
    if ps == [] then "" else (match ps[0] case Kept(c) => [c] case Hit(rule) => rule.from) + Read(ps[1..])
  }

  function Written(ps: seq<Piece>): string {
    if ps == [] then "" else (match ps[0] case Kept(c) => [c] case Hit(rule) => rule.to) + Written(ps[1..])
  }

  /** A pass splits the source into kept characters and literals, in order; keeps a character
      only where no literal begins; and writes every kept character and every replacement in the
      same order. */
  lemma {:induction false} PassKeepsTheRest(s: string, rules: seq<Rule>)
    requires Proper(rules)
    ensures var ps := Pieces(s, rules);
            && Read(ps) == s && Written(ps) == ReplaceAll(s, rules)
            && forall k | 0 <= k < |ps| ::
                 match ps[k]
                 case Kept(_) => Match(Read(ps[k..]), rules).None?
                 case Hit(rule) => rule in rules
    decreases |s|
  {
    if s != "" {
      var m := Match(s, rules);
      var rest := s[if m.Some? then |m.value.from| else 1..];
      PassKeepsTheRest(rest, rules);
      var ps, qs := Pieces(s, rules), Pieces(rest, rules);
      assert ps[1..] == qs && ps[0..] == ps;
      assert Read(ps) == s;
      forall k | 0 <= k < |ps| ensures
          match ps[k]
          case Kept(_) => Match(Read(ps[k..]), rules).None?
          case Hit(rule) => rule in rules
      {
        if k > 0 {
          assert ps[k] == qs[k - 1] && ps[k..] == qs[k - 1..];
        }
      }
    }
  }

  // ---------- the build step ----------

  const VARIANTS: seq<string> := ["", "threaded", "serial", "wasm32/threaded", "wasm32/serial"]

  function LoaderPath(root: string, variant: string): string {
    root + "/" + (if variant != "" then variant + "/" else "") + "orca_slice.js"
  }

  /** The loader paths of the variants, in the order they are visited. */
  function LoaderPaths(root: string): (r: seq<string>)
    ensures |r| == |VARIANTS|
  {
    seq(|VARIANTS|, i requires 0 <= i < |VARIANTS| => LoaderPath(root, VARIANTS[i]))
  }

  lemma VariantPath(root: string, variant: string, path: string)
    requires variant != "" && path == "/" + variant + "/orca_slice.js"
    ensures LoaderPath(root, variant) == root + path
  {
    assert "/orca_slice.js" == "/" + "orca_slice.js";
  }

  lemma PlainPath(root: string)
    ensures LoaderPath(root, "") == root + "/orca_slice.js"
  {
    assert "/orca_slice.js" == "/" + "orca_slice.js";
  }

  lemma ThreadedPath(root: string)
    ensures LoaderPath(root, "threaded") == root + "/threaded/orca_slice.js"
  {
    VariantPath(root, "threaded", "/threaded/orca_slice.js");
  }

  lemma SerialPath(root: string)
    ensures LoaderPath(root, "serial") == root + "/serial/orca_slice.js"
  {
    VariantPath(root, "serial", "/serial/orca_slice.js");
  }

  lemma WideThreadedPath(root: string)
    ensures LoaderPath(root, "wasm32/threaded") == root + "/wasm32/threaded/orca_slice.js"
  {
    VariantPath(root, "wasm32/threaded", "/wasm32/threaded/orca_slice.js");
  }

  lemma WideSerialPath(root: string)
    ensures LoaderPath(root, "wasm32/serial") == root + "/wasm32/serial/orca_slice.js"
  {
    VariantPath(root, "wasm32/serial", "/wasm32/serial/orca_slice.js");
  }

  /** The loaders of the build, in the order they are visited. */
  lemma LoadersOfTheBuild(root: string)
    ensures |LoaderPaths(root)| == 5
    ensures LoaderPaths(root)[0] == root + "/orca_slice.js"
    ensures LoaderPaths(root)[1] == root + "/threaded/orca_slice.js"
    ensures LoaderPaths(root)[2] == root + "/serial/orca_slice.js"
    ensures LoaderPaths(root)[3] == root + "/wasm32/threaded/orca_slice.js"
    ensures LoaderPaths(root)[4] == root + "/wasm32/serial/orca_slice.js"
  {
    hide LoaderPath;
    PlainPath(root);
    ThreadedPath(root);
    SerialPath(root);
    WideThreadedPath(root);
    WideSerialPath(root);
  }

  /** The files after the loaders at `seen` have been rewritten. */
  function Rewritten(files: map<string, string>, seen: seq<string>): map<string, string> {
    map f <- files :: if f in seen then Rewrite(files[f]) else files[f]
  }

  /** Rewriting loaders rewrites each of them once and touches no other file. */
  lemma RewrittenFiles(files: map<string, string>, seen: seq<string>)
    ensures var after := Rewritten(files, seen);
            && after.Keys == files.Keys
            && forall f <- files :: after[f] == if exists i :: 0 <= i < |seen| && seen[i] == f then Rewrite(files[f]) else files[f]
  {
    hide Rewrite;
  }

  lemma NothingRewritten(files: map<string, string>)
    ensures Rewritten(files, []) == files
  {
  }

  /** Rewriting one more loader, were it even one that was rewritten before. */
  lemma RewrittenOnceMore(files: map<string, string>, seen: seq<string>, file: string)
    ensures var before, after := Rewritten(files, seen), Rewritten(files, seen + [file]);
            after == if file in files then before[file := Rewrite(before[file])] else before
  {
    hide Rewrite;
    if file in files {
      RewriteIsIdempotent(files[file]);
    }
  }

  method RewriteSource(text: string) returns (source: string)
    ensures source == Rewrite(text)
    ensures Clean(source, NODE) && Clean(source, PROCESS)
    ensures source == text <==> Clean(text, NODE) && Clean(text, PROCESS)
  {
    LoaderTextsAreInert();
    RewriteIsClean(text);
    RewriteKeepsExactlyCleanText(text);
    source := ReplaceAll(text, NODE);
    source := ReplaceAll(source, PROCESS);
  }

  /** The directory the web build has written. */
  class Dist {
    var files: map<string, string>

    /** Rewrites one loader, if it exists. */
    method RewriteLoader(file: string)
      modifies this`files
      ensures files == if file in old(files) then old(files)[file := Rewrite(old(files)[file])] else old(files)
      ensures files.Keys == old(files.Keys)
    {
      hide Rewrite, Clean;
      if file in files {
        var source := RewriteSource(files[file]);
        files := files[file := source];
      }
    }

    /** Rewrites the loader of every variant that exists. `broken` are the paths whose reading or
        writing fails for another reason than absence; the first of them ends the step. */
    method CloseBundle(root: string, broken: set<string>) returns (ok: bool, done: nat)
      modifies this`files
      ensures done <= |LoaderPaths(root)| && forall i | 0 <= i < done :: LoaderPaths(root)[i] !in broken
      ensures ok <==> done == |LoaderPaths(root)|
      ensures !ok ==> LoaderPaths(root)[done] in broken
      ensures files == Rewritten(old(files), LoaderPaths(root)[..done])
    {
      hide Rewrite, LoaderPaths, Rewritten;
      done := 0;
      var paths := LoaderPaths(root);
      NothingRewritten(files);
      while done < |paths|
        invariant done <= |paths| && forall i | 0 <= i < done :: paths[i] !in broken
        invariant files == Rewritten(old(files), paths[..done]) && files.Keys == old(files.Keys)
      {
        var file := paths[done];
        if file in broken {
          return false, done;
        }
        assert paths[..done + 1] == paths[..done] + [file];
        RewrittenOnceMore(old(files), paths[..done], file);
        RewriteLoader(file);
        done := done + 1;
      }
      ok := true;
    }
  }
}
