/**
 * The webchat script injector of the packaged plugin: whether the footer
 * hook is registered, and the `embeddedWebchatConfig` it writes out, built
 * from the channel data (when fetched) and the plugin's options. The
 * rendering of the config as JavaScript (`esc_js`, `json_encode`) is not
 * modelled; the values are.
 */
module Webchat {
  import opened Optional
  import opened Php

  /** The options table: `get_option(name, default)` reads it. */
  type Options = map<string, string>

  function GetOption(opts: Options, name: string, default: string): (v: string)
    ensures name in opts ==> v == opts[name]
    ensures name !in opts ==> v == default
  {
    if name in opts then opts[name] else default
  }

  /** A yes/no option: true exactly when the stored value, or the default, is "yes". */
  function Flag(opts: Options, name: string, default: string): (b: bool)
    ensures name in opts ==> (b <==> opts[name] == "yes")
    ensures name !in opts ==> (b <==> default == "yes")
  {
    GetOption(opts, name, default) == "yes"
  }

  const EnableOption := "vambe_enable_webchat"
  const ClientIdOption := "vambe_webchat_client_id"
  const ChannelIdOption := "vambe_webchat_channel_id"
  const DefaultClientId := "LiceR3bwyXThUAA6OOQHkwvmh453"
  const DefaultChannelId := "93d737c8-4eec-44b0-98a6-d2ef9e510b0d"
  const QuestionsOption := "vambe_webchat_suggested_questions"
  const MaxQuestions: nat := 4

  /** `init`: the footer hook is registered only when the webchat option is "yes" (default "no"). */
  function RegistersFooterHook(opts: Options): (b: bool)
    ensures b <==> EnableOption in opts && opts[EnableOption] == "yes"
  {
    Flag(opts, EnableOption, "no")
  }

  // ---------------------------------------------------------------------
  // Suggested questions.

  /** The trimmed lines that are not empty to PHP, in order. */
  function KeepQuestions(lines: seq<string>): (qs: seq<string>)
    ensures |qs| <= |lines|
    ensures forall k :: 0 <= k < |qs| ==> !Empty(qs[k]) && Trim(qs[k]) == qs[k]
  {
    if |lines| == 0 then []
    else
      var t := Trim(lines[0]);
      TrimIdempotent(lines[0]);
      (if Empty(t) then [] else [t]) + KeepQuestions(lines[1..])
  }

  /** The suggested questions: the option split on newlines, the first four lines trimmed, the empty ones dropped. */
  function SuggestedQuestions(text: string): (qs: seq<string>)
    ensures Empty(text) ==> qs == []
    ensures |qs| <= MaxQuestions
    ensures forall k :: 0 <= k < |qs| ==> !Empty(qs[k]) && Trim(qs[k]) == qs[k]
  {
    if Empty(text) then []
    else
      var lines := Explode(text, '\n');
      KeepQuestions(if |lines| <= MaxQuestions then lines else lines[..MaxQuestions])
  }

  /** A question as an administrator would enter it: one line, trimmed, not empty. */
  predicate CleanQuestion(q: string) {
    !Empty(q) && Trim(q) == q && '\n' !in q
  }

  lemma {:induction false} KeepClean(qs: seq<string>)
    requires forall k :: 0 <= k < |qs| ==> CleanQuestion(qs[k])
    ensures KeepQuestions(qs) == qs
  {
    if |qs| > 0 {
      KeepClean(qs[1..]);
    }
  }

  lemma {:induction false} ImplodeNotEmpty(qs: seq<string>)
    requires |qs| >= 1 && forall k :: 0 <= k < |qs| ==> CleanQuestion(qs[k])
    ensures !Empty(Implode(qs, '\n'))
  {
    if |qs| > 1 {
      assert Implode(qs, '\n') == qs[0] + ['\n'] + Implode(qs[1..], '\n');
    }
  }

  /** On a non-empty text of lines, the questions are the kept first four lines. */
  lemma {:induction false} SuggestedOfLines(lines: seq<string>)
    requires |lines| >= 1 && forall k :: 0 <= k < |lines| ==> '\n' !in lines[k]
    requires !Empty(Implode(lines, '\n'))
    ensures SuggestedQuestions(Implode(lines, '\n'))
         == KeepQuestions(if |lines| <= MaxQuestions then lines else lines[..MaxQuestions])
  {
    ExplodeImplode(lines, '\n');
  }

  /** Questions entered one per line come back as entered, the first four of them. */
  lemma {:induction false} QuestionsRoundTrip(qs: seq<string>)
    requires forall k :: 0 <= k < |qs| ==> CleanQuestion(qs[k])
    ensures SuggestedQuestions(Implode(qs, '\n')) == if |qs| <= MaxQuestions then qs else qs[..MaxQuestions]
  {
    if |qs| > 0 {
      ImplodeNotEmpty(qs);
      SuggestedOfLines(qs);
      KeepClean(if |qs| <= MaxQuestions then qs else qs[..MaxQuestions]);
    }
  }

  /** A blank line among the first four takes a place: it is dropped and no fifth line moves up. */
  lemma {:induction false} BlankLineTakesAPlace(qs: seq<string>, i: nat)
    requires |qs| >= MaxQuestions + 1 && i < MaxQuestions
    requires forall k :: 0 <= k < |qs| && k != i ==> CleanQuestion(qs[k])
    requires qs[i] == ""
    ensures SuggestedQuestions(Implode(qs, '\n')) == qs[..i] + qs[i + 1..MaxQuestions]
  {
    assert Implode(qs, '\n') == qs[0] + ['\n'] + Implode(qs[1..], '\n');
    assert Implode(qs[1..], '\n') == qs[1] + ['\n'] + Implode(qs[2..], '\n');
    assert |Implode(qs, '\n')| >= 2;
    assert forall k :: 0 <= k < |qs| ==> '\n' !in qs[k];
    SuggestedOfLines(qs);
    SplitAt(qs, i, MaxQuestions);
    KeepSplit(qs[..i], qs[i], qs[i + 1..MaxQuestions]);
  }

  lemma SplitAt(s: seq<string>, i: nat, n: nat)
    requires i < n <= |s|
    ensures s[..n] == s[..i] + [s[i]] + s[i + 1..n]
  {
  }

  lemma TrimEmpty()
    ensures Trim("") == ""
  {
  }

  /** A blank line contributes nothing. */
  lemma {:induction false} KeepBlankHead(post: seq<string>)
    ensures KeepQuestions([""] + post) == KeepQuestions(post)
  {
    TrimEmpty();
    assert ([""] + post)[1..] == post;
  }

  lemma {:induction false} KeepSplit(pre: seq<string>, blank: string, post: seq<string>)
    requires blank == ""
    requires forall k :: 0 <= k < |pre| ==> CleanQuestion(pre[k])
    requires forall k :: 0 <= k < |post| ==> CleanQuestion(post[k])
    ensures KeepQuestions(pre + [blank] + post) == pre + post
  {
    assert pre + [blank] + post == pre + ([blank] + post);
    KeepAppend(pre, [blank] + post);
    KeepBlankHead(post);
    KeepClean(pre);
    KeepClean(post);
  }

  lemma {:induction false} KeepAppend(a: seq<string>, b: seq<string>)
    ensures KeepQuestions(a + b) == KeepQuestions(a) + KeepQuestions(b)
  {
    if |a| > 0 {
      assert (a + b)[1..] == a[1..] + b;
      KeepAppend(a[1..], b);
    } else {
      assert a + b == b;
    }
  }

  // ---------------------------------------------------------------------
  // The config.

  /** What the channels endpoint returned, when it was fetched: `clientId` and `channels` if present. */
  datatype ChannelData = ChannelData(clientId: Option<string>, channels: Option<seq<string>>)

  /** The channel data names a client: the branch that takes ids from it. */
  predicate NamesClient(data: Option<ChannelData>) {
    data.Some? && data.value.clientId.Some? && !Empty(data.value.clientId.value)
  }

  /** The client id: the channel data's when it names one, else the option (with its default). */
  function ClientId(data: Option<ChannelData>, opts: Options): (id: string)
    ensures NamesClient(data) ==> id == data.value.clientId.value
    ensures !NamesClient(data) ==> id == GetOption(opts, ClientIdOption, DefaultClientId)
  {
    if NamesClient(data) then data.value.clientId.value
    else GetOption(opts, ClientIdOption, DefaultClientId)
  }

  /** The channel id: the first channel when the data names a client and that channel is not empty, else the option. */
  function ChannelId(data: Option<ChannelData>, opts: Options): (id: string)
    ensures !NamesClient(data) ==> id == GetOption(opts, ChannelIdOption, DefaultChannelId)
    ensures (NamesClient(data) && data.value.channels.Some? && |data.value.channels.value| > 0
             && !Empty(data.value.channels.value[0])) ==> id == data.value.channels.value[0]
    ensures (NamesClient(data) && (data.value.channels.None? || |data.value.channels.value| == 0
             || Empty(data.value.channels.value[0]))) ==> id == GetOption(opts, ChannelIdOption, DefaultChannelId)
  {
    var first :=
      if NamesClient(data) && data.value.channels.Some? && |data.value.channels.value| > 0
      then data.value.channels.value[0] else "";
    if !Empty(first) then first else GetOption(opts, ChannelIdOption, DefaultChannelId)
  }

  /** `window.embeddedWebchatConfig`; the optional fields are `None` when not written. */
  datatype Config = Config(
    clientId: string,
    channelId: string,
    agentName: string,
    agentIconUrl: string,
    darkTheme: bool,
    primaryColor: string,
    secondaryColor: string,
    language: string,
    askForPhoneNumber: bool,
    askForEmail: bool,
    askForName: bool,
    chatWithUsText: Option<string>,
    suggestedQuestions: Option<seq<string>>)

  /** `inject_shop_script`: nothing in admin pages, else the config. */
  function InjectShopScript(isAdmin: bool, data: Option<ChannelData>, opts: Options): (c: Option<Config>)
    ensures c.None? <==> isAdmin
    ensures c.Some? ==> (c.value.chatWithUsText.Some? <==> !Empty(GetOption(opts, "vambe_webchat_chat_with_us_text", "")))
    ensures c.Some? ==> (c.value.suggestedQuestions.Some? <==> SuggestedQuestions(GetOption(opts, QuestionsOption, "")) != [])
    ensures c.Some? && c.value.suggestedQuestions.Some? ==> 0 < |c.value.suggestedQuestions.value| <= MaxQuestions
  {
    if isAdmin then None
    else
      var text := GetOption(opts, "vambe_webchat_chat_with_us_text", "");
      var qs := SuggestedQuestions(GetOption(opts, QuestionsOption, ""));
      Some(Config(
        ClientId(data, opts),
        ChannelId(data, opts),
        GetOption(opts, "vambe_webchat_agent_name", "Vambe Assistant"),
        GetOption(opts, "vambe_webchat_agent_icon_url", ""),
        Flag(opts, "vambe_webchat_dark_theme", "no"),
        GetOption(opts, "vambe_webchat_primary_color", "#000000"),
        GetOption(opts, "vambe_webchat_secondary_color", "#FFFFFF"),
        GetOption(opts, "vambe_webchat_language", "es"),
        Flag(opts, "vambe_webchat_ask_for_phone", "yes"),
        Flag(opts, "vambe_webchat_ask_for_email", "yes"),
        Flag(opts, "vambe_webchat_ask_for_name", "yes"),
        if Empty(text) then None else Some(text),
        if qs == [] then None else Some(qs)))
  }

  /** With no options stored and no channel data, the config is the documented default one. */
  lemma DefaultConfig()
    ensures InjectShopScript(false, None, map[]) == Some(Config(
      DefaultClientId, DefaultChannelId, "Vambe Assistant", "", false, "#000000", "#FFFFFF", "es",
      true, true, true, None, None))
  {
  }

  /** A flag stored as anything other than exactly "yes" ("Yes", "true", "1") is off. */
  lemma OnlyYesIsOn(opts: Options, name: string, default: string)
    requires name in opts && opts[name] != "yes"
    ensures !Flag(opts, name, default)
  {
  }

  /** The channel data's client id wins over the stored option, and its channel goes with it. */
  lemma DataWinsOverOptions(client: string, channel: string, rest: seq<string>, opts: Options)
    requires !Empty(client) && !Empty(channel)
    ensures var data := Some(ChannelData(Some(client), Some([channel] + rest)));
      InjectShopScript(false, data, opts).value.clientId == client
      && InjectShopScript(false, data, opts).value.channelId == channel
  {
  }

  /** Channel data without a usable client id leaves both ids to the options, even when it lists channels. */
  lemma ChannelsIgnoredWithoutClient(channels: seq<string>, opts: Options)
    ensures var data := Some(ChannelData(Some(""), Some(channels)));
      InjectShopScript(false, data, opts).value.clientId == GetOption(opts, ClientIdOption, DefaultClientId)
      && InjectShopScript(false, data, opts).value.channelId == GetOption(opts, ChannelIdOption, DefaultChannelId)
  {
  }
}
