/**
 * The weather alert rules (`generateWeatherAlerts`): threshold checks on
 * today's record, producing the list of messages shown in the alert panel.
 */
module Alerts {
  import opened Forecast

  /** The five messages the rules can emit. */
  datatype Alert = HighRain | RainShowers | Heat | Cold | AllClear

  /** The first character of each message: five different emoji. */
  function Emoji(a: Alert): char {
    match a
    case HighRain => '\U{26A0}'
    case RainShowers => '\U{1F326}'
    case Heat => '\U{1F525}'
    case Cold => '\U{2744}'
    case AllClear => '\U{2705}'
  }

  /** The literal text of each message (Unicode scalar values); each opens with its own emoji. */
  function Message(a: Alert): (m: string)
    ensures |m| > 0 && m[0] == Emoji(a)
  {
    match a
    case HighRain => "\U{26A0}" + "\U{FE0F} High chance of rain today. Bring an umbrella!"
    case RainShowers => "\U{1F326}" + "\U{FE0F} Possible rain showers, stay prepared."
    case Heat => "\U{1F525}" + " Heat alert: Stay hydrated and avoid long sun exposure."
    case Cold => "\U{2744}" + "\U{FE0F} Cold weather alert: Dress warmly."
    case AllClear => "\U{2705}" + " No severe weather alerts today."
  }

  /**
   * JavaScript's `x >= t` for a value read from the forecast: `undefined`
   * converts to NaN (never true) and `null` converts to 0.
   */
  predicate AtLeast(x: Reading, t: real) {
    match x
    case Missing => false
    case Null => 0.0 >= t
    case Num(v) => v >= t
  }

  /** JavaScript's `x <= t`, with the same conversions as `AtLeast`. */
  predicate AtMost(x: Reading, t: real) {
    match x
    case Missing => false
    case Null => 0.0 <= t
    case Num(v) => v <= t
  }

  /** Position of each message in the fixed emission order. */
  function Rank(a: Alert): nat {
    match a
    case HighRain => 0
    case RainShowers => 1
    case Heat => 2
    case Cold => 3
    case AllClear => 4
  }

  /** Messages appear in rule order: rain, heat, cold, then the fallback; no repeats. */
  predicate InRuleOrder(s: seq<Alert>) {
    forall i, j :: 0 <= i < j < |s| ==> Rank(s[i]) < Rank(s[j])
  }

  /** Some threshold rule fires for this day. */
  predicate AnyRuleFires(today: Day) {
    AtLeast(today.rainProbability, 50.0) || AtLeast(today.tempMax, 35.0) || AtMost(today.tempMin, 10.0)
  }

  /**
   * What the rules promise about the message list for `today`:
   * the high-rain message iff the rain probability is at least 80; the
   * showers message iff it is below 80 but at least 50; the heat message iff
   * the maximum is at least 35; the cold message iff the minimum is at most
   * 10; the all-clear message iff no rule fired, and then alone; all in rule
   * order.
   */
  predicate FollowsRules(today: Day, alerts: seq<Alert>) {
    (HighRain in alerts <==> AtLeast(today.rainProbability, 80.0)) &&
    (RainShowers in alerts <==> !AtLeast(today.rainProbability, 80.0) && AtLeast(today.rainProbability, 50.0)) &&
    (Heat in alerts <==> AtLeast(today.tempMax, 35.0)) &&
    (Cold in alerts <==> AtMost(today.tempMin, 10.0)) &&
    (AllClear in alerts <==> !AnyRuleFires(today)) &&
    (AllClear in alerts ==> alerts == [AllClear]) &&
    InRuleOrder(alerts)
  }

  /** `generateWeatherAlerts(today)`: builds the list by appending, rule by rule. */
  method GenerateAlerts(today: Day) returns (alerts: seq<Alert>)
    ensures FollowsRules(today, alerts)
    ensures 1 <= |alerts| <= 3
  {
    alerts := [];

    if AtLeast(today.rainProbability, 80.0) {
      alerts := alerts + [HighRain];
    } else if AtLeast(today.rainProbability, 50.0) {
      alerts := alerts + [RainShowers];
    }

    if AtLeast(today.tempMax, 35.0) {
      alerts := alerts + [Heat];
    }

    if AtMost(today.tempMin, 10.0) {
      alerts := alerts + [Cold];
    }

    if |alerts| == 0 {
      alerts := alerts + [AllClear];
    }
  }

  /** A non-empty list has a member. */
  lemma HeadIsMember(s: seq<Alert>)
    requires s != []
    ensures exists x :: x in s
  {
    assert s[0] in s;
  }

  /** The head of a list in rule order has the least rank of its members. */
  lemma HeadRanksFirst(s: seq<Alert>)
    requires InRuleOrder(s) && s != []
    ensures forall x :: x in s ==> Rank(s[0]) <= Rank(x)
  {
    forall x | x in s ensures Rank(s[0]) <= Rank(x) {
      var i :| 0 <= i < |s| && s[i] == x;
      if i > 0 {
        assert Rank(s[0]) < Rank(s[i]);
      }
    }
  }

  /** Dropping the head of a list in rule order removes exactly that message and keeps the order. */
  lemma TailDropsHead(s: seq<Alert>)
    requires InRuleOrder(s) && s != []
    ensures InRuleOrder(s[1..])
    ensures forall x :: x in s[1..] <==> x in s && x != s[0]
  {
    forall x | x in s[1..] ensures x != s[0] {
      var i :| 0 <= i < |s[1..]| && s[1..][i] == x;
      assert Rank(s[0]) < Rank(s[i + 1]);
    }
    assert s == [s[0]] + s[1..];
  }

  /** Two lists in rule order holding the same messages are the same list. */
  lemma {:induction false} OrderedListsWithSameAlertsAreEqual(a: seq<Alert>, b: seq<Alert>)
    requires InRuleOrder(a) && InRuleOrder(b)
    requires forall x :: x in a <==> x in b
    ensures a == b
    decreases |a|
  {
    if a == [] {
      if b != [] {
        HeadIsMember(b);
        assert false;
      }
    } else {
      assert a[0] in b;
      HeadRanksFirst(a);
      HeadRanksFirst(b);
      assert b[0] in a;
      assert Rank(a[0]) == Rank(b[0]);
      assert a[0] == b[0];
      TailDropsHead(a);
      TailDropsHead(b);
      OrderedListsWithSameAlertsAreEqual(a[1..], b[1..]);
      assert a == [a[0]] + a[1..] && b == [b[0]] + b[1..];
    }
  }

  /** The rules fix the message list completely: the same day always gives the same list. */
  lemma RulesDetermineAlerts(today: Day, a: seq<Alert>, b: seq<Alert>)
    requires FollowsRules(today, a) && FollowsRules(today, b)
    ensures a == b
  {
    forall x ensures x in a <==> x in b {
      match x
      case HighRain =>
      case RainShowers =>
      case Heat =>
      case Cold =>
      case AllClear =>
    }
    OrderedListsWithSameAlertsAreEqual(a, b);
  }

  /** The boundary values themselves trigger their rule; the values just past them do not. */
  lemma InclusiveThresholds(date: string, a: seq<Alert>, b: seq<Alert>)
    requires FollowsRules(Day(date, Num(35.0), Num(10.0), Num(80.0)), a)
    requires FollowsRules(Day(date, Num(349.0 / 10.0), Num(101.0 / 10.0), Num(79.0)), b)
    ensures a == [HighRain, Heat, Cold]
    ensures b == [RainShowers]
  {
    assert HighRain in a && Heat in a && Cold in a && RainShowers !in a && AllClear !in a;
    OrderedListsWithSameAlertsAreEqual(a, [HighRain, Heat, Cold]);
    assert RainShowers in b && HighRain !in b && Heat !in b && Cold !in b && AllClear !in b;
    OrderedListsWithSameAlertsAreEqual(b, [RainShowers]);
  }

  /** A mild, dry day gives exactly the all-clear message. */
  lemma AllClearScenario(date: string, a: seq<Alert>)
    requires FollowsRules(Day(date, Num(20.0), Num(15.0), Num(0.0)), a)
    ensures a == [AllClear]
  {
  }

  /**
   * Values the provider left out: `undefined` fires no rule, while a `null`
   * minimum reads as 0 and fires the cold alert.
   */
  lemma MissingValuesScenario(date: string, a: seq<Alert>, b: seq<Alert>)
    requires FollowsRules(Day(date, Missing, Missing, Missing), a)
    requires FollowsRules(Day(date, Null, Null, Null), b)
    ensures a == [AllClear]
    ensures b == [Cold]
  {
    assert Cold in b && AllClear !in b && HighRain !in b && RainShowers !in b && Heat !in b;
    OrderedListsWithSameAlertsAreEqual(b, [Cold]);
  }

  /** Different alerts have different texts, so a text list names its alerts unambiguously. */
  lemma MessagesDistinct(x: Alert, y: Alert)
    requires x != y
    ensures Message(x) != Message(y)
  {
    assert Emoji(x) != Emoji(y);
  }

  /** The array of strings the page shows: the text of each alert, in order. */
  function Texts(alerts: seq<Alert>): (t: seq<string>)
    ensures |t| == |alerts|
    ensures forall i :: 0 <= i < |t| ==> t[i] == Message(alerts[i])
  {
    seq(|alerts|, i requires 0 <= i < |alerts| => Message(alerts[i]))
  }

  /** The shown strings determine the alert list: `Texts` loses nothing. */
  lemma TextsDetermineAlerts(a: seq<Alert>, b: seq<Alert>)
    requires Texts(a) == Texts(b)
    ensures a == b
  {
    assert |a| == |b|;
    forall i | 0 <= i < |a| ensures a[i] == b[i] {
      assert Message(a[i]) == Texts(a)[i] == Message(b[i]);
      if a[i] != b[i] {
        MessagesDistinct(a[i], b[i]);
      }
    }
  }

  /**
   * `generateWeatherAlerts(today)` as the page receives it: the texts of
   * the rule-ordered alert list, one to three strings.
   */
  method GenerateAlertTexts(today: Day) returns (messages: seq<string>)
    ensures exists alerts :: FollowsRules(today, alerts) && messages == Texts(alerts)
    ensures 1 <= |messages| <= 3
  {
    var alerts := GenerateAlerts(today);
    messages := Texts(alerts);
  }
}
