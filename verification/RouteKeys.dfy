/** Composite Redis keys and their parsers. */
module RouteKeys {
  import opened Options

  /** The built-in `partition`: text before the first separator, whether there is one, and the rest. */
  function Partition(s: string, sep: char): (string, bool, string) {
    if s == "" then ("", false, "")
    else if s[0] == sep then ("", true, s[1..])
    else
      var (head, found, tail) := Partition(s[1..], sep);
      ([s[0]] + head, found, tail)
  }

  /** The built-in `rpartition`: split at the last separator; without one, all text is in the tail. */
  function RPartition(s: string, sep: char): (string, bool, string) {
    if s == "" then ("", false, "")
    else
      var init, last := s[..|s| - 1], s[|s| - 1];
      if last == sep then (init, true, "")
      else
        var (head, found, tail) := RPartition(init, sep);
        (head, found, tail + [last])
  }

  lemma {:induction false} PartitionAt(a: string, sep: char, b: string)
    requires sep !in a
    ensures Partition(a + [sep] + b, sep) == (a, true, b)
  {
    var s := a + [sep] + b;
    if a == "" {
      assert s[1..] == b;
    } else {
      PartitionAt(a[1..], sep, b);
      assert s[1..] == a[1..] + [sep] + b;
      assert a == [a[0]] + a[1..];
    }
  }

  lemma {:induction false} RPartitionAt(a: string, sep: char, b: string)
    requires sep !in b
    ensures RPartition(a + [sep] + b, sep) == (a, true, b)
  {
    var s := a + [sep] + b;
    if b == "" {
      assert s[..|s| - 1] == a;
    } else {
      var init := b[..|b| - 1];
      RPartitionAt(a, sep, init);
      assert s[..|s| - 1] == a + [sep] + init;
      assert b == init + [b[|b| - 1]];
    }
  }

  lemma {:induction false} PartitionHead(s: string, sep: char)
    ensures var (head, found, tail) := Partition(s, sep);
            sep !in head && (if found then s == head + [sep] + tail else s == head)
  {
    if s != "" {
      PartitionHead(s[1..], sep);
      assert s == [s[0]] + s[1..];
    }
  }

  // ----- integers -----

  function Digit(d: nat): (c: char)
    requires d < 10
    ensures '0' <= c <= '9' && c as int - '0' as int == d
  {
    (d + '0' as int) as char
  }

  function PrintNat(n: nat): (s: string)
    ensures s != "" && forall c <- s :: '0' <= c <= '9'
  {
    if n < 10 then [Digit(n)] else PrintNat(n / 10) + [Digit(n % 10)]
  }

  function PrintInt(n: int): string {
    if n < 0 then "-" + PrintNat(-n) else PrintNat(n)
  }

  /** Digits with single underscores between them. */
  function ParseDigits(s: string): Option<nat> {
    if s == "" then None
    else
      var init, last := s[..|s| - 1], s[|s| - 1];
      if !('0' <= last <= '9') then None
      else
        var d := last as int - '0' as int;
        if init == "" then Some(d)
        else
          var before := if init[|init| - 1] == '_' then ParseDigits(init[..|init| - 1]) else ParseDigits(init);
          if before.Some? then Some(10 * before.value + d) else None
  }

  predicate IsSpace(c: char) {
    c == ' ' || '\t' <= c <= '\r'
  }

  function Strip(s: string): string {
    if s != "" && IsSpace(s[0]) then Strip(s[1..])
    else if s != "" && IsSpace(s[|s| - 1]) then Strip(s[..|s| - 1])
    else s
  }

  /** The built-in `int` of a text. */
  function ParseInt(text: string): Option<int> {
    var s := Strip(text);
    if s == "" then None
    else if s[0] == '-' then
      var r := ParseDigits(s[1..]);
      if r.Some? then Some(0 - r.value) else None
    else
      var r := ParseDigits(if s[0] == '+' then s[1..] else s);
      if r.Some? then Some(r.value) else None
  }

  lemma ParseOneMore(s: string, d: nat)
    requires s != "" && s[|s| - 1] != '_' && d < 10
    ensures ParseDigits(s + [Digit(d)]) == if ParseDigits(s).Some? then Some(10 * ParseDigits(s).value + d) else None
  {
    assert (s + [Digit(d)])[..|s|] == s;
  }

  lemma {:induction false} PrintNatParses(n: nat)
    ensures ParseDigits(PrintNat(n)) == Some(n)
  {
    if n >= 10 {
      var s := PrintNat(n / 10);
      PrintNatParses(n / 10);
      assert s[|s| - 1] in s;
      ParseOneMore(s, n % 10);
    }
  }

  lemma PrintNatEnds(n: nat)
    ensures var s := PrintNat(n);
            '0' <= s[0] <= '9' && '0' <= s[|s| - 1] <= '9' && ':' !in s
  {
    var s := PrintNat(n);
    assert s[0] in s && s[|s| - 1] in s;
  }

  lemma PrintIntParses(n: int)
    ensures ParseInt(PrintInt(n)) == Some(n) && ':' !in PrintInt(n) && PrintInt(n) != ""
  {
    var m := if n < 0 then -n else n;
    PrintNatParses(m);
    PrintNatEnds(m);
    var s, text := PrintNat(m), PrintInt(n);
    if n < 0 {
      assert text == "-" + s && text[1..] == s && text[|text| - 1] == s[|s| - 1];
    }
    assert Strip(text) == text;
  }

  // ----- read receipts -----

  function CoalesceField(chat: string, user: int): string {
    chat + ":" + PrintInt(user)
  }

  function ParseCoalesceField(field: string): Option<(string, int)> {
    var (chat, found, user) := RPartition(field, ':');
    if !found || chat == "" then None
    else
      var u := ParseInt(user);
      if u.Some? then Some((chat, u.value)) else None
  }

  /** Parsing gives back what was printed exactly when the chat id is not
      empty; it may contain separators. */
  lemma CoalesceFieldRoundTrip(chat: string, user: int)
    ensures ParseCoalesceField(CoalesceField(chat, user)) == Some((chat, user)) <==> chat != ""
  {
    PrintIntParses(user);
    RPartitionAt(chat, ':', PrintInt(user));
  }

  /** So one claimed field never stands for two (chat, user) pairs. */
  lemma CoalesceFieldInjective(chat: string, user: int, chat': string, user': int)
    requires CoalesceField(chat, user) == CoalesceField(chat', user')
    ensures chat == chat' && user == user'
  {
    PrintIntParses(user);
    PrintIntParses(user');
    RPartitionAt(chat, ':', PrintInt(user));
    RPartitionAt(chat', ':', PrintInt(user'));
  }

  /** Whatever parses was a chat id that is not empty, a separator, and the text of an integer. */
  lemma ParsedFieldMeans(field: string)
    ensures var r := ParseCoalesceField(field);
            r.Some? ==> var (chat, user) := r.value;
              chat != "" && |chat| < |field| && field[..|chat|] == chat && field[|chat|] == ':'
              && ':' !in field[|chat| + 1..] && ParseInt(field[|chat| + 1..]) == Some(user)
  {
    RPartitionTail(field, ':');
  }

  lemma {:induction false} RPartitionTail(s: string, sep: char)
    ensures var (head, found, tail) := RPartition(s, sep);
            sep !in tail && (if found then s == head + [sep] + tail else s == tail)
  {
    if s != "" {
      RPartitionTail(s[..|s| - 1], sep);
      assert s == s[..|s| - 1] + [s[|s| - 1]];
    }
  }

  /** The cursors a claim parses from distinct fields are those that were printed,
      and no two are for the same chat and user. */
  lemma ParsedClaimDistinct(fields: seq<string>, keys: seq<(string, int)>)
    requires |fields| == |keys|
    requires forall i :: 0 <= i < |keys| ==> keys[i].0 != "" && fields[i] == CoalesceField(keys[i].0, keys[i].1)
    requires forall i, j :: 0 <= i < j < |fields| ==> fields[i] != fields[j]
    ensures forall i :: 0 <= i < |keys| ==> ParseCoalesceField(fields[i]) == Some(keys[i])
    ensures forall i, j :: 0 <= i < j < |keys| ==> keys[i] != keys[j]
  {
    forall i | 0 <= i < |keys| ensures ParseCoalesceField(fields[i]) == Some(keys[i]) {
      CoalesceFieldRoundTrip(keys[i].0, keys[i].1);
    }
  }

  // ----- routes -----

  /** A member of a user's route set. */
  function UserRoute(gateway: string, connection: string): string {
    gateway + ":" + connection
  }

  /** What the route lookup makes of it; None is a stale route. */
  function GatewayOf(route: string): Option<string> {
    var (gateway, found, connection) := Partition(route, ':');
    if !found || gateway == "" || connection == "" then None else Some(gateway)
  }

  /** The route begins with the gateway and a separator, and more follows. */
  predicate IsRouteOn(route: string, g: string) {
    g != "" && ':' !in g && |g| + 1 < |route| && route[..|g|] == g && route[|g|] == ':'
  }

  lemma GatewayOfMeans(route: string, g: string)
    ensures GatewayOf(route) == Some(g) <==> IsRouteOn(route, g)
  {
    PartitionHead(route, ':');
    if IsRouteOn(route, g) {
      assert route == g + [':'] + route[|g| + 1..];
      PartitionAt(g, ':', route[|g| + 1..]);
    }
  }

  predicate Addressable(gateway: string, connection: string) {
    gateway != "" && ':' !in gateway && connection != ""
  }

  /** A route leads back to its gateway exactly when the gateway id is not empty
      and free of separators and the connection id is not empty. */
  lemma UserRouteRoundTrip(gateway: string, connection: string)
    ensures GatewayOf(UserRoute(gateway, connection)) == Some(gateway) <==> Addressable(gateway, connection)
  {
    PartitionHead(UserRoute(gateway, connection), ':');
    if ':' !in gateway {
      PartitionAt(gateway, ':', connection);
    }
  }

  function ActiveSubscriptionRoute(user: int, gateway: string, connection: string): string {
    PrintInt(user) + ":" + gateway + ":" + connection
  }

  function ParseActiveSubscriptionRoute(route: string): Option<(int, string, string)> {
    var (user, found1, rest) := Partition(route, ':');
    var (gateway, found2, connection) := Partition(rest, ':');
    if !found1 || !found2 || user == "" || gateway == "" || connection == "" then None
    else
      var u := ParseInt(user);
      if u.Some? then Some((u.value, gateway, connection)) else None
  }

  /** Whatever parses was the text of an integer, a gateway and a connection, with
      separators after the first two. */
  lemma ParsedRouteMeans(route: string)
    ensures var r := ParseActiveSubscriptionRoute(route);
            r.Some? ==> exists user: string ::
              && ':' !in user && ParseInt(user) == Some(r.value.0) && r.value.1 != "" && ':' !in r.value.1 && r.value.2 != ""
              && route == user + [':'] + (r.value.1 + [':'] + r.value.2)
  {
    PartitionHead(route, ':');
    var (user, found, rest) := Partition(route, ':');
    PartitionHead(rest, ':');
  }

  lemma ActiveSubscriptionRouteRoundTrip(user: int, gateway: string, connection: string)
    ensures ParseActiveSubscriptionRoute(ActiveSubscriptionRoute(user, gateway, connection)) == Some((user, gateway, connection))
       <==> Addressable(gateway, connection)
  {
    var rest := gateway + ":" + connection;
    PrintIntParses(user);
    assert ActiveSubscriptionRoute(user, gateway, connection) == PrintInt(user) + [':'] + rest;
    PartitionAt(PrintInt(user), ':', rest);
    PartitionHead(rest, ':');
    if ':' !in gateway {
      PartitionAt(gateway, ':', connection);
    }
  }
}
