/** The topics of requests and replies: built on the client by joining, and on the server by replacing a word. */
module Topics {
  import opened Paths

  const REQUEST: string := "request"
  const RESPONSE: string := "response"

  // ---- strings.Replace and strings.ReplaceAll --------------------------------------------------------------------

  predicate OccursAt(s: string, word: string, k: nat) { k + |word| <= |s| && s[k..k + |word|] == word }

  ghost predicate Occurs(s: string, word: string) { exists k: nat :: OccursAt(s, word, k) }

  function ReplaceFirst(s: string, word: string, sub: string): string
    decreases |s|
  {
    if word <= s then sub + s[|word|..]
    else if s == "" then s
    else [s[0]] + ReplaceFirst(s[1..], word, sub)
  }

  function ReplaceAll(s: string, word: string, sub: string): string
    requires word != ""
    decreases |s|
  {
    if word <= s then sub + ReplaceAll(s[|word|..], word, sub)
    else if s == "" then s
    else [s[0]] + ReplaceAll(s[1..], word, sub)
  }

  // ---- The topics ------------------------------------------------------------------------------------------------

  /** The client's topic of either kind, from createRPCClient of both transports. */
  function ClientTopic(prefix: string, device: string, kind: string, id: string): string {
    Join([prefix, device, kind, id])
  }

  /** The server's subscription. */
  function Filter(prefix: string, device: string): string {
    Join([prefix, device, REQUEST + "/+"])
  }

  /** GetReplyTopic of the protobuf transport. */
  function ReplyTopic(topic: string): string {
    ReplaceFirst(topic, REQUEST, RESPONSE)
  }

  /** ReplyTopic of the JSON transport. */
  function JsonReplyTopic(topic: string): string {
    ReplaceAll(topic, REQUEST, RESPONSE)
  }

  /** The prefix and the device as one cleaned path. */
  function Base(prefix: string, device: string): string {
    Clean(Raw("", [prefix, device]))
  }

  // ---- The shape of a topic --------------------------------------------------------------------------------------

  /** A path up to and with the slash after its last element. */
  function Lead(rooted: bool, stack: seq<string>): string {
    (if rooted then "/" else "") + if stack == [] then "" else Glue(stack) + "/"
  }

  function BaseLead(prefix: string, device: string): string {
    var raw := Raw("", [prefix, device]);
    Lead(Rooted(raw), Stack(raw))
  }

  function Attach(buf: string, element: string): string {
    if buf == "" then element else buf + "/" + element
  }

  lemma RawUnfolds(a: string, b: string, c: string, d: string)
    ensures Raw("", [a, b]) == Attach(a, b)
    ensures Raw("", [a, b, c]) == Attach(Attach(a, b), c)
    ensures Raw("", [a, b, c, d]) == Attach(Attach(Attach(a, b), c), d)
  {
    assert [a, b][1..] == [b] && [a, b, c][1..] == [b, c] && [a, b, c, d][1..] == [b, c, d];
    assert [b, c][1..] == [c] && [b, c, d][1..] == [c, d] && [c, d][1..] == [d];
    assert forall buf: string, x: string :: Raw(buf, [x]) == Attach(buf, x);
    assert forall buf: string :: Raw(buf, [b, c]) == Raw(Attach(buf, b), [c]);
    assert forall buf: string :: Raw(buf, [c, d]) == Raw(Attach(buf, c), [d]);
    assert forall buf: string :: Raw(buf, [b, c, d]) == Raw(Attach(buf, b), [c, d]);
  }

  lemma RawOfFour(prefix: string, device: string, kind: string, id: string)
    requires Plain(kind)
    ensures Raw("", [prefix, device, kind, id]) ==
      (var raw := Raw("", [prefix, device]); if raw == "" then kind + "/" + id else raw + "/" + kind + "/" + id)
  {
    RawUnfolds(prefix, device, kind, id);
  }

  lemma StackOfTwo(kind: string, id: string)
    requires Plain(kind) && Plain(id)
    ensures Stack(kind + "/" + id) == [kind, id] && !Rooted(kind + "/" + id)
  {
    StackPush(kind, id);
    SplitSlashFree(kind);
    assert CleanLevels(false, [], [kind]) == CleanLevels(false, [kind], []);
    assert [kind] + [id] == [kind, id];
  }

  /** The elements of a topic are those of the prefix and the device, then its kind, then the id. */
  lemma TopicStack(prefix: string, device: string, kind: string, id: string)
    requires Plain(kind) && Plain(id)
    ensures
      var raw := Raw("", [prefix, device]);
      && Solid(Stack(raw))
      && ClientTopic(prefix, device, kind, id) == Render(Rooted(raw), Stack(raw) + [kind, id])
  {
    var raw := Raw("", [prefix, device]);
    RawOfFour(prefix, device, kind, id);
    CleanLevelsSolid(Rooted(raw), [], Split(raw));
    if raw == "" {
      StackOfTwo(kind, id);
      assert Stack(raw) + [kind, id] == [kind, id];
    } else {
      StackPush(raw, kind);
      StackPush(raw + "/" + kind, id);
      assert Stack(raw) + [kind] + [id] == Stack(raw) + [kind, id];
    }
  }

  lemma TopicShape(prefix: string, device: string, kind: string, id: string)
    requires Plain(kind) && Plain(id)
    ensures ClientTopic(prefix, device, kind, id) == BaseLead(prefix, device) + (kind + ("/" + id))
  {
    var raw := Raw("", [prefix, device]);
    TopicStack(prefix, device, kind, id);
    assert Glue([kind, id]) == kind + ("/" + id) by {
      assert [kind, id][1..] == [id];
      assert kind + "/" + id == kind + ("/" + id);
    }
    if Stack(raw) == [] {
      assert Stack(raw) + [kind, id] == [kind, id];
    } else {
      GlueAppend(Stack(raw), [kind, id]);
    }
  }

  lemma FilterStack(prefix: string, device: string)
    ensures
      var raw := Raw("", [prefix, device]);
      Filter(prefix, device) == Render(Rooted(raw), Stack(raw) + [REQUEST, "+"])
  {
    TopicStack(prefix, device, REQUEST, "+");
    RawOfFour(prefix, device, REQUEST, "+");
    RawUnfolds(prefix, device, REQUEST + "/+", "");
    var raw := Raw("", [prefix, device]);
    assert raw + "/" + REQUEST + "/" + "+" == raw + "/" + (REQUEST + "/+");
    assert REQUEST + "/" + "+" == REQUEST + "/+";
  }

  // ---- Words without a slash do not cross an element -------------------------------------------------------------

  predicate Ended(a: string) { a == "" || a[|a| - 1] == '/' }

  lemma PrefixInside(a: string, b: string, word: string)
    requires Ended(a) && SlashFree(word) && a != ""
    ensures word <= a + b <==> word <= a
  {
    if word <= a + b {
      assert (a + b)[|a| - 1] == '/';
      assert forall k :: 0 <= k < |word| ==> word[k] == (a + b)[k] && word[k] != '/';
      assert |word| <= |a|;
      assert a == (a + b)[..|a|];
    }
    if word <= a {
      assert a <= a + b;
    }
  }

  lemma OccursShift(s: string, word: string)
    requires s != ""
    ensures Occurs(s, word) <==> word <= s || Occurs(s[1..], word)
  {
    if word <= s {
      assert OccursAt(s, word, 0);
    }
    if k: nat :| OccursAt(s[1..], word, k) {
      assert s[1..][k..k + |word|] == s[k + 1..k + 1 + |word|];
      assert OccursAt(s, word, k + 1);
    }
    if k: nat :| OccursAt(s, word, k) {
      if k > 0 {
        assert s[1..][k - 1..k - 1 + |word|] == s[k..k + |word|];
        assert OccursAt(s[1..], word, k - 1);
      } else {
        assert word <= s;
      }
    }
  }

  lemma Associates(a: string, b: string, c: string)
    ensures a + (b + c) == (a + b) + c
  {
  }

  lemma {:induction false} ReplaceFirstAppend(a: string, b: string, word: string, sub: string)
    requires Ended(a) && SlashFree(word) && word != ""
    ensures ReplaceFirst(a + b, word, sub) ==
      if Occurs(a, word) then ReplaceFirst(a, word, sub) + b else a + ReplaceFirst(b, word, sub)
    decreases |a|
  {
    if a == "" {
      assert a + b == b;
    } else {
      PrefixInside(a, b, word);
      OccursShift(a, word);
      if word <= a {
        assert (a + b)[|word|..] == a[|word|..] + b;
        Associates(sub, a[|word|..], b);
      } else {
        var rest := a[1..];
        assert (a + b)[1..] == rest + b && (a + b)[0] == a[0];
        ReplaceFirstAppend(rest, b, word, sub);
        Associates([a[0]], ReplaceFirst(rest, word, sub), b);
        Associates([a[0]], rest, ReplaceFirst(b, word, sub));
        assert a == [a[0]] + rest;
      }
    }
  }

  lemma {:induction false} ReplaceAllAppend(a: string, b: string, word: string, sub: string)
    requires Ended(a) && SlashFree(word) && word != ""
    ensures ReplaceAll(a + b, word, sub) == ReplaceAll(a, word, sub) + ReplaceAll(b, word, sub)
    decreases |a|
  {
    if a == "" {
      assert a + b == b;
    } else {
      PrefixInside(a, b, word);
      if word <= a {
        var rest := a[|word|..];
        assert (a + b)[|word|..] == rest + b && Ended(rest);
        ReplaceAllAppend(rest, b, word, sub);
        Associates(sub, ReplaceAll(rest, word, sub), ReplaceAll(b, word, sub));
      } else {
        var rest := a[1..];
        assert (a + b)[1..] == rest + b && (a + b)[0] == a[0];
        ReplaceAllAppend(rest, b, word, sub);
        Associates([a[0]], ReplaceAll(rest, word, sub), ReplaceAll(b, word, sub));
      }
    }
  }

  /** Replacing all is the identity exactly on strings without the word; a longer replacement only grows a string. */
  lemma {:induction false} ReplaceAllGrows(s: string, word: string, sub: string)
    requires word != "" && |sub| > |word|
    ensures if Occurs(s, word) then |ReplaceAll(s, word, sub)| > |s| else ReplaceAll(s, word, sub) == s
    decreases |s|
  {
    if word <= s {
      ReplaceAllGrows(s[|word|..], word, sub);
      assert OccursAt(s, word, 0);
    } else if s != "" {
      OccursShift(s, word);
      ReplaceAllGrows(s[1..], word, sub);
      assert s == [s[0]] + s[1..];
    } else {
      assert forall k: nat :: !OccursAt(s, word, k);
    }
  }

  /** For a plain prefix and device, the topics in full. */
  lemma PlainTopics(prefix: string, device: string, id: string)
    requires Plain(prefix) && Plain(device) && Plain(id)
    ensures ClientTopic(prefix, device, REQUEST, id) == Glue([prefix, device, "request", id])
    ensures ClientTopic(prefix, device, RESPONSE, id) == Glue([prefix, device, "response", id])
    ensures Filter(prefix, device) == Glue([prefix, device, "request", "+"])
  {
    RawUnfolds(prefix, device, "", "");
    StackOfTwo(prefix, device);
    TopicStack(prefix, device, REQUEST, id);
    TopicStack(prefix, device, RESPONSE, id);
    FilterStack(prefix, device);
    assert [prefix, device] + [REQUEST, id] == [prefix, device, "request", id];
    assert [prefix, device] + [RESPONSE, id] == [prefix, device, "response", id];
    assert [prefix, device] + [REQUEST, "+"] == [prefix, device, "request", "+"];
  }

  // ---- The reply-topic theorem -----------------------------------------------------------------------------------

  lemma OccursBeforeSlash(a: string, word: string)
    requires SlashFree(word) && word != ""
    ensures Occurs(a + "/", word) <==> Occurs(a, word)
  {
    if k: nat :| OccursAt(a, word, k) {
      assert (a + "/")[k..k + |word|] == a[k..k + |word|];
      assert OccursAt(a + "/", word, k);
    }
    if k: nat :| OccursAt(a + "/", word, k) {
      var found := (a + "/")[k..k + |word|];
      assert found[|word| - 1] == (a + "/")[k + |word| - 1];
      assert (a + "/")[|a|] == '/';
      assert k + |word| <= |a|;
      assert (a + "/")[k..k + |word|] == a[k..k + |word|];
      assert OccursAt(a, word, k);
    }
  }

  /** The word occurs in the part of a topic before its kind exactly when it occurs in the cleaned path. */
  lemma OccursInLead(prefix: string, device: string)
    ensures Occurs(BaseLead(prefix, device), REQUEST) <==> Occurs(Base(prefix, device), REQUEST)
    ensures Ended(BaseLead(prefix, device))
  {
    var raw := Raw("", [prefix, device]);
    var lead, base := BaseLead(prefix, device), Base(prefix, device);
    if Stack(raw) == [] {
      assert |lead| <= 1 && |base| <= 1;
      assert forall k: nat :: !OccursAt(lead, REQUEST, k) && !OccursAt(base, REQUEST, k);
    } else {
      assert lead == base + "/";
      OccursBeforeSlash(base, REQUEST);
    }
  }

  /** The first occurrence is in the lead, or it is the word that follows the lead. */
  lemma ReplaceFirstAfter(lead: string, word: string, sub: string, rest: string)
    requires Ended(lead) && SlashFree(word) && word != ""
    ensures ReplaceFirst(lead + (word + rest), word, sub) ==
      if Occurs(lead, word) then ReplaceFirst(lead, word, sub) + (word + rest) else lead + (sub + rest)
  {
    ReplaceFirstAppend(lead, word + rest, word, sub);
    assert (word + rest)[|word|..] == rest;
  }

  lemma ShiftedWordDiffers(lead: string, lead': string, word: string, sub: string, rest: string)
    requires |lead'| == |lead| + 1 && |word| > 0 && |sub| > 1 && word[0] != sub[1]
    ensures lead' + (word + rest) != lead + (sub + rest)
  {
    assert (lead' + (word + rest))[|lead| + 1] == word[0];
    assert (lead + (sub + rest))[|lead| + 1] == sub[1];
  }

  lemma {:induction false} ReplaceFirstLength(s: string, word: string, sub: string)
    requires Occurs(s, word)
    ensures |ReplaceFirst(s, word, sub)| == |s| - |word| + |sub|
    decreases |s|
  {
    if !(word <= s) {
      assert s != "";
      OccursShift(s, word);
      ReplaceFirstLength(s[1..], word, sub);
    }
  }

  lemma ReplyOnLead(lead: string, rest: string)
    requires Ended(lead)
    ensures ReplyTopic(lead + (REQUEST + rest)) == lead + (RESPONSE + rest) <==> !Occurs(lead, REQUEST)
  {
    ReplaceFirstAfter(lead, REQUEST, RESPONSE, rest);
    if Occurs(lead, REQUEST) {
      ReplaceFirstLength(lead, REQUEST, RESPONSE);
      ShiftedWordDiffers(lead, ReplaceFirst(lead, REQUEST, RESPONSE), REQUEST, RESPONSE, rest);
    }
  }

  /**
   The server of the protobuf transport replies to the topic on which the client waits if and only if the word does
   not occur in the cleaned prefix and device.
   */
  lemma ReplyTopicTheorem(prefix: string, device: string, id: string)
    requires Plain(id)
    ensures ReplyTopic(ClientTopic(prefix, device, REQUEST, id)) == ClientTopic(prefix, device, RESPONSE, id)
      <==> !Occurs(Base(prefix, device), REQUEST)
  {
    TopicShape(prefix, device, REQUEST, id);
    TopicShape(prefix, device, RESPONSE, id);
    OccursInLead(prefix, device);
    ReplyOnLead(BaseLead(prefix, device), "/" + id);
  }

  /** The JSON transport replaces every occurrence, so its id must be free of the word as well. */
  lemma JsonReplyTopicTheorem(prefix: string, device: string, id: string)
    requires Plain(id)
    ensures JsonReplyTopic(ClientTopic(prefix, device, REQUEST, id)) == ClientTopic(prefix, device, RESPONSE, id)
      <==> !Occurs(Base(prefix, device), REQUEST) && !Occurs(id, REQUEST)
  {
    TopicShape(prefix, device, REQUEST, id);
    TopicShape(prefix, device, RESPONSE, id);
    OccursInLead(prefix, device);
    JsonReplyOnLead(BaseLead(prefix, device), id);
  }

  lemma JsonReplyOnLead(lead: string, id: string)
    requires Ended(lead)
    ensures JsonReplyTopic(lead + (REQUEST + ("/" + id))) == lead + (RESPONSE + ("/" + id))
      <==> !Occurs(lead, REQUEST) && !Occurs(id, REQUEST)
  {
    ReplaceAllAppend(lead, REQUEST + ("/" + id), REQUEST, RESPONSE);
    ReplaceAllTail(REQUEST, RESPONSE, id);
    ReplaceAllGrows(lead, REQUEST, RESPONSE);
    ReplaceAllGrows(id, REQUEST, RESPONSE);
    SameWhereLengthsAgree(lead, ReplaceAll(lead, REQUEST, RESPONSE), RESPONSE, id, ReplaceAll(id, REQUEST, RESPONSE));
  }

  lemma ReplaceAllTail(word: string, sub: string, id: string)
    requires SlashFree(word) && word != ""
    ensures ReplaceAll(word + ("/" + id), word, sub) == sub + ("/" + ReplaceAll(id, word, sub))
  {
    assert (word + ("/" + id))[|word|..] == "/" + id;
    ReplaceAllAppend("/", id, word, sub);
    assert ReplaceAll("/", word, sub) == "/" by {
      assert "/"[1..] == "";
    }
  }

  lemma SameWhereLengthsAgree(lead: string, lead': string, sub: string, id: string, id': string)
    requires lead' == lead || |lead'| > |lead|
    requires id' == id || |id'| > |id|
    ensures lead' + (sub + ("/" + id')) == lead + (sub + ("/" + id)) <==> lead' == lead && id' == id
  {
    var got, want := lead' + (sub + ("/" + id')), lead + (sub + ("/" + id));
    assert |got| == |lead'| + |sub| + 1 + |id'| && |want| == |lead| + |sub| + 1 + |id|;
    assert got[..|lead'|] == lead' && want[..|lead|] == lead;
    assert got[|lead'| + |sub| + 1..] == id' && want[|lead| + |sub| + 1..] == id;
  }

  /** On topics that the protobuf transport answers correctly, both rewritings agree if the id is free of the word. */
  lemma BothRewritingsAgree(prefix: string, device: string, id: string)
    requires Plain(id) && !Occurs(Base(prefix, device), REQUEST)
    ensures ReplyTopic(ClientTopic(prefix, device, REQUEST, id))
      == JsonReplyTopic(ClientTopic(prefix, device, REQUEST, id))
      <==> !Occurs(id, REQUEST)
  {
    ReplyTopicTheorem(prefix, device, id);
    JsonReplyTopicTheorem(prefix, device, id);
  }

  /** The text of the random identifiers both clients use. */
  predicate IsUuid(id: string) {
    |id| == 36 && forall k :: 0 <= k < |id| ==> id[k] in "0123456789abcdef-"
  }

  /** For those identifiers the two transports answer on the same, simple condition. */
  lemma UuidTopics(prefix: string, device: string, id: string)
    requires IsUuid(id)
    ensures Plain(id)
    ensures JsonReplyTopic(ClientTopic(prefix, device, REQUEST, id)) == ClientTopic(prefix, device, RESPONSE, id)
      <==> !Occurs(Base(prefix, device), REQUEST)
    ensures ReplyTopic(ClientTopic(prefix, device, REQUEST, id)) == ClientTopic(prefix, device, RESPONSE, id)
      <==> !Occurs(Base(prefix, device), REQUEST)
  {
    assert forall k :: 0 <= k < |id| ==> id[k] != '/';
    assert Plain(id);
    forall k: nat | k + |REQUEST| <= |id|
      ensures !OccursAt(id, REQUEST, k)
    {
      assert id[k] != 'r' && id[k..k + |REQUEST|][0] == id[k];
    }
    ReplyTopicTheorem(prefix, device, id);
    JsonReplyTopicTheorem(prefix, device, id);
  }

  // ---- Routing ---------------------------------------------------------------------------------------------------

  /** The single-level wildcard of section 4.7.1.3 of MQTT 3.1.1, for filters without the multi-level one. */
  predicate Matches(filter: string, topic: string) {
    LevelsMatch(Split(filter), Split(topic))
  }

  predicate WildcardFree(s: string) { '+' !in s && '#' !in s }

  lemma {:induction false} SplitWildcardFree(s: string)
    requires WildcardFree(s)
    ensures forall k :: 0 <= k < |Split(s)| ==> WildcardFree(Split(s)[k])
    decreases |s|
  {
    if s != "" {
      SplitWildcardFree(s[1..]);
    }
  }

  lemma BaseWildcardFree(prefix: string, device: string)
    requires WildcardFree(prefix) && WildcardFree(device)
    ensures "+" !in Stack(Raw("", [prefix, device]))
    ensures Solid(Stack(Raw("", [prefix, device])))
  {
    var raw := Raw("", [prefix, device]);
    RawUnfolds(prefix, device, "", "");
    assert WildcardFree(raw);
    SplitWildcardFree(raw);
    CleanLevelsSolid(Rooted(raw), [], Split(raw));
    assert !WildcardFree("+");
  }

  predicate LevelsMatch(f: seq<string>, t: seq<string>) {
    |f| == |t| && forall k :: 0 <= k < |f| ==> f[k] == "+" || f[k] == t[k]
  }

  lemma MatchTail(f: seq<string>, t: seq<string>, id: string)
    requires "+" !in f
    ensures LevelsMatch(f + [REQUEST, "+"], t + [REQUEST, id]) <==> f == t
  {
    var f', t' := f + [REQUEST, "+"], t + [REQUEST, id];
    if LevelsMatch(f', t') {
      forall k | 0 <= k < |f| ensures f[k] == t[k] {
        assert f'[k] == f[k] && t'[k] == t[k] && f[k] != "+";
      }
      assert f == t;
    }
  }

  lemma RootLevelsDetermine(rooted: bool, stack: seq<string>, rooted': bool, stack': seq<string>)
    requires Solid(stack) && Solid(stack')
    requires RootLevels(rooted) + stack == RootLevels(rooted') + stack'
    ensures rooted == rooted' && stack == stack'
  {
    var own, own' := RootLevels(rooted) + stack, RootLevels(rooted') + stack';
    assert rooted <==> own != [] && own[0] == "";
    assert rooted' <==> own' != [] && own'[0] == "";
    assert stack == own[|RootLevels(rooted)|..];
    assert stack' == own'[|RootLevels(rooted')|..];
  }

  /** The cleaned path and its elements determine each other. */
  lemma BaseDetermined(rooted: bool, stack: seq<string>, rooted': bool, stack': seq<string>)
    requires Solid(stack) && Solid(stack') && "." !in stack && "." !in stack'
    ensures RootLevels(rooted) + stack == RootLevels(rooted') + stack'
      <==> Render(rooted, stack) == Render(rooted', stack')
  {
    SplitOfRender(rooted, stack);
    SplitOfRender(rooted', stack');
    var one, other := Split(Render(rooted, stack)), Split(Render(rooted', stack'));
    assert stack == [] <==> one[|one| - 1] == "" || one[|one| - 1] == ".";
    assert stack' == [] <==> other[|other| - 1] == "" || other[|other| - 1] == ".";
    if RootLevels(rooted) + stack == RootLevels(rooted') + stack' {
      RootLevelsDetermine(rooted, stack, rooted', stack');
    }
  }

  lemma {:induction false} CleanLevelsDotFree(rooted: bool, stack: seq<string>, levels: seq<string>)
    requires "." !in stack
    ensures "." !in CleanLevels(rooted, stack, levels)
    decreases |levels|
  {
    if levels != [] {
      CleanLevelsDotFree(rooted, CleanStep(rooted, stack, levels[0]), levels[1..]);
    }
  }

  lemma TopicLevels(prefix: string, device: string, id: string)
    requires Plain(id)
    ensures
      var raw := Raw("", [prefix, device]);
      var own := RootLevels(Rooted(raw)) + Stack(raw);
      && Split(ClientTopic(prefix, device, REQUEST, id)) == own + [REQUEST, id]
      && Split(Filter(prefix, device)) == own + [REQUEST, "+"]
  {
    var raw := Raw("", [prefix, device]);
    var root := RootLevels(Rooted(raw));
    TopicStack(prefix, device, REQUEST, id);
    FilterStack(prefix, device);
    SplitRender(Rooted(raw), Stack(raw) + [REQUEST, id]);
    SplitRender(Rooted(raw), Stack(raw) + [REQUEST, "+"]);
    assert root + (Stack(raw) + [REQUEST, id]) == root + Stack(raw) + [REQUEST, id];
    assert root + (Stack(raw) + [REQUEST, "+"]) == root + Stack(raw) + [REQUEST, "+"];
  }

  /** A server's filter takes a client's request exactly when both have the same cleaned prefix and device. */
  lemma RoutingTheorem(prefix: string, device: string, prefix': string, device': string, id: string)
    requires WildcardFree(prefix') && WildcardFree(device') && Plain(id)
    ensures Matches(Filter(prefix', device'), ClientTopic(prefix, device, REQUEST, id))
      <==> Base(prefix', device') == Base(prefix, device)
  {
    var raw, raw' := Raw("", [prefix, device]), Raw("", [prefix', device']);
    BaseWildcardFree(prefix', device');
    CleanLevelsSolid(Rooted(raw), [], Split(raw));
    TopicLevels(prefix, device, id);
    TopicLevels(prefix', device', id);
    MatchTail(RootLevels(Rooted(raw')) + Stack(raw'), RootLevels(Rooted(raw)) + Stack(raw), id);
    CleanLevelsDotFree(Rooted(raw), [], Split(raw));
    CleanLevelsDotFree(Rooted(raw'), [], Split(raw'));
    BaseDetermined(Rooted(raw), Stack(raw), Rooted(raw'), Stack(raw'));
  }
}
