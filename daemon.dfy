/**
 * The two decisions the asic2mqtt daemon makes on its own: which level the
 * console log handler gets, and, in one pass over the configured devices,
 * which MQTT topics receive a message.
 *
 * The ping probe and the vendor clients are I/O: their outcome for each
 * device is an input (`Poll`), and the publishes are returned as a list
 * instead of being sent.
 */
module Asic2Mqtt {
  import opened Text

  // ---------------------------------------------------------------------
  // Console log level
  // ---------------------------------------------------------------------

  datatype LogLevel = Debug | Info | Warning | Error

  /** The numeric value of the level in Python's `logging` module; a
      handler shows records at or above it. */
  function Severity(l: LogLevel): nat {
    match l
    case Debug => 10
    case Info => 20
    case Warning => 30
    case Error => 40
  }

  function LevelName(l: LogLevel): string {
    match l
    case Debug => "DEBUG"
    case Info => "INFO"
    case Warning => "WARNING"
    case Error => "ERROR"
  }

  /** `log_level_map`: the four level names the configuration may give. */
  const LevelMap: map<string, LogLevel> :=
    map["DEBUG" := Debug, "INFO" := Info, "WARNING" := Warning, "ERROR" := Error]

  /** The level of the console handler chosen by `setup_logging`, from the
      `logging` section of the configuration and the number of `-v` flags. */
  function ConsoleLevel(configLogging: map<string, string>, verbose: nat): (r: LogLevel)
    ensures verbose > 0 ==> r != Error
    ensures verbose == 0 && "level" !in configLogging ==> r == Error
    ensures verbose == 0 && r != Error ==>
      "level" in configLogging && Upper(configLogging["level"]) == LevelName(r)
  {
    if verbose > 0 then
      if verbose == 1 then Warning
      else if verbose == 2 then Info
      else Debug
    else
      assert Upper("ERROR") == "ERROR";
      var levelStr := Upper(if "level" in configLogging then configLogging["level"] else "ERROR");
      if levelStr in LevelMap then LevelMap[levelStr] else Error
  }

  /** One `-v` shows warnings, two show information, three or more show
      everything, whatever the configuration says. */
  lemma VerboseLevels(configLogging: map<string, string>, verbose: nat)
    requires verbose > 0
    ensures ConsoleLevel(configLogging, verbose) ==
      if verbose == 1 then Warning else if verbose == 2 then Info else Debug
  {
  }

  /** From one `-v` upward, each further `-v` lets at least as many records
      through. */
  lemma MoreVerboseShowsMore(configLogging: map<string, string>, v1: nat, v2: nat)
    requires 1 <= v1 <= v2
    ensures Severity(ConsoleLevel(configLogging, v2)) <= Severity(ConsoleLevel(configLogging, v1))
  {
  }

  /** A first `-v` replaces the configured level by WARNING, so with DEBUG or
      INFO configured it makes the console quieter than no `-v` at all. */
  lemma FirstVerboseCanQuiet(configLogging: map<string, string>)
    requires "level" in configLogging
    requires Upper(configLogging["level"]) == "DEBUG" || Upper(configLogging["level"]) == "INFO"
    ensures Severity(ConsoleLevel(configLogging, 1)) > Severity(ConsoleLevel(configLogging, 0))
  {
    assert Upper("ERROR") == "ERROR";
  }

  /** Without `-v`, the console level is the configured one when its name,
      upper-cased, is one of the four level names, and ERROR otherwise
      (also when no level is configured). */
  lemma ConfiguredLevel(configLogging: map<string, string>, l: LogLevel)
    ensures ConsoleLevel(configLogging, 0) == l <==>
      if l == Error
      then !("level" in configLogging && Upper(configLogging["level"]) in {"DEBUG", "INFO", "WARNING"})
      else "level" in configLogging && Upper(configLogging["level"]) == LevelName(l)
  {
    assert Upper("ERROR") == "ERROR";
  }

  /** The configured level name is matched without regard to letter case. */
  lemma ConfiguredLevelIgnoresCase(configLogging: map<string, string>, name: string)
    requires "level" in configLogging && Upper(configLogging["level"]) == Upper(name)
    ensures ConsoleLevel(configLogging, 0) == ConsoleLevel(map["level" := name], 0)
  {
  }

  /** Naming a level in the configuration selects it. */
  lemma LevelNameSelects(l: LogLevel)
    ensures ConsoleLevel(map["level" := LevelName(l)], 0) == l
  {
    UpperIgnoresCase(LevelName(l));
    assert Upper(LevelName(l)) == LevelName(l) by {
      match l
      case Debug => assert Upper("DEBUG") == "DEBUG";
      case Info => assert Upper("INFO") == "INFO";
      case Warning => assert Upper("WARNING") == "WARNING";
      case Error => assert Upper("ERROR") == "ERROR";
    }
  }

  // ---------------------------------------------------------------------
  // Per-device routing
  // ---------------------------------------------------------------------

  /** One entry of the `asics` section: its key and the `ip` and `topic`
      values, each possibly missing. */
  datatype Device = Device(name: string, ip: Option<string>, topic: Option<string>)

  /** A reply fetched from a device: its JSON text and whether the Python
      value was truthy (not None and not empty). */
  datatype Payload = Payload(json: string, truthy: bool)

  /** What the outside world answers for one device in one pass: whether
      the ping succeeded, and the two replies fetched (summary and edevs
      for a Whatsminer, stats and devs for an Antminer). */
  datatype Poll = Poll(reachable: bool, first: Payload, second: Payload)

  datatype Publish = Publish(topic: string, message: string)

  datatype Model = Whatsminer | Antminer | Unknown

  /** A configuration value is usable when present and non-empty. */
  predicate Present(o: Option<string>) {
    o.Some? && o.value != []
  }

  /** The vendor, recognised from the device name, Whatsminer first. */
  function ModelOf(name: string): (m: Model)
    ensures m == Whatsminer <==> Contains(Lower(name), "whatsminer")
    ensures m == Antminer ==> Contains(Lower(name), "antminer")
  {
    if Contains(Lower(name), "whatsminer") then Whatsminer
    else if Contains(Lower(name), "antminer") then Antminer
    else Unknown
  }

  /** The two topic suffixes used for a vendor. */
  function Suffixes(m: Model): (string, string) {
    match m
    case Whatsminer => ("/summary", "/edevs")
    case Antminer => ("/stats", "/devs")
    case Unknown => ("", "")
  }

  /** The messages one iteration of the device loop publishes, in order. */
  function Route(d: Device, p: Poll): (r: seq<Publish>)
    ensures |r| <= 2
    ensures r != [] ==> Present(d.ip) && p.reachable && ModelOf(d.name) != Unknown
  {
    if !Present(d.ip) || !Present(d.topic) then []
    else if !p.reachable then []
    else
      var m := ModelOf(d.name);
      if m == Unknown then []
      else
        var (s1, s2) := Suffixes(m);
        (if p.first.truthy then [Publish(d.topic.value + s1, p.first.json)] else [])
        + (if p.second.truthy then [Publish(d.topic.value + s2, p.second.json)] else [])
  }

  predicate PublishedTo(r: seq<Publish>, topic: string) {
    exists k :: 0 <= k < |r| && r[k].topic == topic
  }

  /** A device with a missing or empty ip or topic gets no message. */
  lemma IncompleteDeviceSkipped(d: Device, p: Poll)
    requires !Present(d.ip) || !Present(d.topic)
    ensures Route(d, p) == []
  {
  }

  /** A device that does not answer the ping gets no message. */
  lemma UnreachableDeviceSkipped(d: Device, p: Poll)
    requires !p.reachable
    ensures Route(d, p) == []
  {
  }

  /** "whatsminer" anywhere in the name, in any case, wins over
      "antminer"; a name with neither is not polled. */
  lemma ModelByName(name: string)
    ensures Contains(Lower(name), "whatsminer") ==> ModelOf(name) == Whatsminer
    ensures ModelOf(name) == Antminer <==>
      !Contains(Lower(name), "whatsminer") && Contains(Lower(name), "antminer")
    ensures ModelOf(name) == Unknown <==>
      !Contains(Lower(name), "whatsminer") && !Contains(Lower(name), "antminer")
    ensures ModelOf(name) == ModelOf(Upper(name))
  {
    LowerIgnoresCase(name);
  }

  /** A Whatsminer publishes to `topic/summary` exactly when the summary is
      truthy and to `topic/edevs` exactly when edevs is, and nowhere else;
      an Antminer likewise to `topic/stats` and `topic/devs`; an unknown
      device nowhere. */
  lemma RouteTopics(d: Device, p: Poll, t: string)
    ensures PublishedTo(Route(d, p), t) <==>
      Present(d.ip) && Present(d.topic) && p.reachable && ModelOf(d.name) != Unknown &&
      ((t == d.topic.value + Suffixes(ModelOf(d.name)).0 && p.first.truthy) ||
       (t == d.topic.value + Suffixes(ModelOf(d.name)).1 && p.second.truthy))
  {
    var r := Route(d, p);
    if PublishedTo(r, t) {
      var k :| 0 <= k < |r| && r[k].topic == t;
    }
    if Present(d.ip) && Present(d.topic) && p.reachable && ModelOf(d.name) != Unknown {
      var (s1, s2) := Suffixes(ModelOf(d.name));
      if t == d.topic.value + s1 && p.first.truthy {
        assert r[0].topic == t;
      }
      if t == d.topic.value + s2 && p.second.truthy {
        assert r[|r| - 1].topic == t;
      }
    }
  }

  /** Each reply goes to its own topic: `(t, m)` is published exactly
      when the device is configured, reachable and recognised, and either
      `m` is the first reply's JSON on the first suffix or the second
      reply's JSON on the second suffix, that reply being truthy. */
  lemma RouteMessages(d: Device, p: Poll, t: string, m: string)
    ensures Publish(t, m) in Route(d, p) <==>
      Present(d.ip) && Present(d.topic) && p.reachable && ModelOf(d.name) != Unknown &&
      ((t == d.topic.value + Suffixes(ModelOf(d.name)).0 && m == p.first.json && p.first.truthy) ||
       (t == d.topic.value + Suffixes(ModelOf(d.name)).1 && m == p.second.json && p.second.truthy))
  {
    if Present(d.ip) && Present(d.topic) && p.reachable && ModelOf(d.name) != Unknown {
      var (s1, s2) := Suffixes(ModelOf(d.name));
      var a := if p.first.truthy then [Publish(d.topic.value + s1, p.first.json)] else [];
      var b := if p.second.truthy then [Publish(d.topic.value + s2, p.second.json)] else [];
      assert Route(d, p) == a + b;
    }
  }

  /** When both replies are sent, the first reply goes to the first topic
      and is published before the second reply, which goes to the second. */
  lemma RouteOrder(d: Device, p: Poll)
    ensures |Route(d, p)| == 2 ==>
      Route(d, p) == [Publish(d.topic.value + Suffixes(ModelOf(d.name)).0, p.first.json),
                      Publish(d.topic.value + Suffixes(ModelOf(d.name)).1, p.second.json)]
  {
  }

  /** A failed fetch: `get_whatsminer_data` and `get_antminer_data` return
      `(None, None)` when either call raises, and the device then gets no
      message at all. */
  lemma FailedFetchPublishesNothing(d: Device, p: Poll)
    requires !p.first.truthy && !p.second.truthy
    ensures Route(d, p) == []
  {
  }

  /** Each truthy reply of a device that passes every test is published
      exactly once, and nothing else is. */
  lemma RoutePublishesOnce(d: Device, p: Poll)
    ensures |Route(d, p)| ==
      if Present(d.ip) && Present(d.topic) && p.reachable && ModelOf(d.name) != Unknown
      then (if p.first.truthy then 1 else 0) + (if p.second.truthy then 1 else 0)
      else 0
  {
  }

  // ---------------------------------------------------------------------
  // One pass over the configured devices
  // ---------------------------------------------------------------------

  /** The messages of one pass: each device's, in configuration order. */
  function RouteAll(devices: seq<Device>, polls: seq<Poll>): (r: seq<Publish>)
    requires |polls| == |devices|
    ensures |r| <= 2 * |devices|
  {
    if devices == [] then []
    else Route(devices[0], polls[0]) + RouteAll(devices[1..], polls[1..])
  }

  lemma {:induction false} RouteAllConcat(d1: seq<Device>, p1: seq<Poll>, d2: seq<Device>, p2: seq<Poll>)
    requires |p1| == |d1| && |p2| == |d2|
    ensures RouteAll(d1 + d2, p1 + p2) == RouteAll(d1, p1) + RouteAll(d2, p2)
  {
    if d1 == [] {
      assert d1 + d2 == d2 && p1 + p2 == p2;
    } else {
      var d, p := d1 + d2, p1 + p2;
      var head := Route(d1[0], p1[0]);
      assert d[0] == d1[0] && p[0] == p1[0];
      assert d[1..] == d1[1..] + d2 && p[1..] == p1[1..] + p2;
      RouteAllConcat(d1[1..], p1[1..], d2, p2);
      calc {
        RouteAll(d, p);
        head + RouteAll(d1[1..] + d2, p1[1..] + p2);
        head + (RouteAll(d1[1..], p1[1..]) + RouteAll(d2, p2));
        (head + RouteAll(d1[1..], p1[1..])) + RouteAll(d2, p2);
      }
    }
  }

  lemma RouteAllAppend(devices: seq<Device>, polls: seq<Poll>, i: nat)
    requires |polls| == |devices| && i < |devices|
    ensures RouteAll(devices[..i + 1], polls[..i + 1]) ==
      RouteAll(devices[..i], polls[..i]) + Route(devices[i], polls[i])
  {
    assert devices[..i + 1] == devices[..i] + [devices[i]];
    assert polls[..i + 1] == polls[..i] + [polls[i]];
    RouteAllConcat(devices[..i], polls[..i], [devices[i]], [polls[i]]);
    assert RouteAll([devices[i]], [polls[i]]) == Route(devices[i], polls[i]) by {
      assert [devices[i]][1..] == [] && [polls[i]][1..] == [];
    }
  }

  /** One pass of the `for asic_name, asic_config in asics.items()` loop:
      the publishes it issues, in order. */
  method PollOnce(devices: seq<Device>, polls: seq<Poll>) returns (published: seq<Publish>)
    requires |polls| == |devices|
    ensures published == RouteAll(devices, polls)
  {
    published := [];
    for i := 0 to |devices|
      invariant published == RouteAll(devices[..i], polls[..i])
    {
      var d, p := devices[i], polls[i];
      RouteAllAppend(devices, polls, i);
      if !Present(d.ip) || !Present(d.topic) {
        continue;
      }
      if !p.reachable {
        continue;
      }
      var m := ModelOf(d.name);
      if m != Unknown {
        var (s1, s2) := Suffixes(m);
        if p.first.truthy {
          published := published + [Publish(d.topic.value + s1, p.first.json)];
        }
        if p.second.truthy {
          published := published + [Publish(d.topic.value + s2, p.second.json)];
        }
      }
    }
    assert devices[..|devices|] == devices && polls[..|polls|] == polls;
  }

  /** A topic receives a message from a concatenation exactly when it
      receives one from either part. */
  lemma PublishedToConcat(a: seq<Publish>, b: seq<Publish>, t: string)
    ensures PublishedTo(a + b, t) <==> PublishedTo(a, t) || PublishedTo(b, t)
  {
    if PublishedTo(a + b, t) {
      var ab := a + b;
      var k :| 0 <= k < |ab| && ab[k].topic == t;
      if k >= |a| {
        assert b[k - |a|].topic == t;
      }
    }
    if PublishedTo(b, t) {
      var k :| 0 <= k < |b| && b[k].topic == t;
      assert (a + b)[|a| + k].topic == t;
    }
    if PublishedTo(a, t) {
      var k :| 0 <= k < |a| && a[k].topic == t;
      assert (a + b)[k].topic == t;
    }
  }

  /** A pass publishes to a topic exactly when some device's routing does:
      skipped devices contribute nothing and no message is invented. */
  lemma {:induction false} RouteAllTopics(devices: seq<Device>, polls: seq<Poll>, t: string)
    requires |polls| == |devices|
    ensures PublishedTo(RouteAll(devices, polls), t) <==>
      exists i :: 0 <= i < |devices| && PublishedTo(Route(devices[i], polls[i]), t)
  {
    if devices != [] {
      RouteAllTopics(devices[1..], polls[1..], t);
      PublishedToConcat(Route(devices[0], polls[0]), RouteAll(devices[1..], polls[1..]), t);
      if exists i :: 1 <= i < |devices| && PublishedTo(Route(devices[i], polls[i]), t) {
        var i :| 1 <= i < |devices| && PublishedTo(Route(devices[i], polls[i]), t);
        assert devices[1..][i - 1] == devices[i] && polls[1..][i - 1] == polls[i];
      }
      if exists j :: 0 <= j < |devices[1..]| && PublishedTo(Route(devices[1..][j], polls[1..][j]), t) {
        var j :| 0 <= j < |devices[1..]| && PublishedTo(Route(devices[1..][j], polls[1..][j]), t);
        assert devices[1..][j] == devices[j + 1] && polls[1..][j] == polls[j + 1];
      }
    }
  }
}
