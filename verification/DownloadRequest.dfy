/** uds_client.cc: download_file prints a request; client.go: fuseConnectionHandler parses it. */
module DownloadRequest {
  import opened Options
  import opened Decimal

  // ---- the line ----

  /** The servers as the xattr holds them. */
  function Join(parts: seq<string>): string {
    if parts == [] then "" else if |parts| == 1 then parts[0] else parts[0] + "," + Join(parts[1..])
  }

  const BUFFER := 100

  /** The request that download_file prints. */
  function Printed(path: string, end: nat, servers: string): string {
    path + "," + Print(end) + "," + servers + "\n"
  }

  /** What write sends of it: all, or, if it does not fit, the 99 characters that snprintf leaves
      in buf and the terminator; whatever lies behind buf comes after that. */
  function Wire(s: string): string { if |s| < BUFFER then s else s[..BUFFER - 1] + "\0" }

  /** ReadBytes('\n') without the newline; None if the line does not end. */
  function Line(stream: string): Option<string> {
    if stream == "" then None
    else if stream[0] == '\n' then Some("")
    else match Line(stream[1..]) case None => None case Some(rest) => Some([stream[0]] + rest)
  }

  /** strings.Split(s, ",") */
  function Split(s: string): (r: seq<string>)
    ensures r != []
  {
    if s == "" then [""]
    else
      var rest := Split(s[1..]);
      if s[0] == ',' then [""] + rest else [[s[0]] + rest[0]] + rest[1..]
  }

  predicate Space(c: char) { c in {' ', '\t', '\n', '\r', 11 as char, 12 as char} }

  function TrimLeft(s: string): string { if s != "" && Space(s[0]) then TrimLeft(s[1..]) else s }

  function TrimRight(s: string): string {
    if s != "" && Space(s[|s| - 1]) then TrimRight(s[..|s| - 1]) else s
  }

  /** strings.TrimSpace */
  function Trim(s: string): string { TrimRight(TrimLeft(s)) }

  function TrimAll(l: seq<string>): (r: seq<string>)
    ensures |r| == |l| && forall k :: 0 <= k < |l| ==> r[k] == Trim(l[k])
  {
    if l == [] then [] else [Trim(l[0])] + TrimAll(l[1..])
  }

  // ---- the server list ----

  /** Each element where it first occurs. */
  function Firsts(l: seq<string>): seq<string> {
    if l == [] then []
    else
      var last := l[|l| - 1];
      if last in l[..|l| - 1] then Firsts(l[..|l| - 1]) else Firsts(l[..|l| - 1]) + [last]
  }

  /** The position of the first occurrence. */
  function First(l: seq<string>, x: string): (k: nat)
    requires x in l
    ensures k < |l| && l[k] == x && x !in l[..k]
  {
    if l[0] == x then 0 else
      assert l == [l[0]] + l[1..];
      First(l[1..], x) + 1
  }

  lemma {:induction false} FirstOfPrefix(l: seq<string>, n: nat, x: string)
    requires n <= |l| && x in l[..n]
    ensures x in l && First(l, x) == First(l[..n], x)
  {
    if l[0] != x {
      assert l[..n] == [l[0]] + l[1..][..n - 1] && l[..n][1..] == l[1..][..n - 1];
      FirstOfPrefix(l[1..], n - 1, x);
    }
  }

  lemma {:induction false} FirstsSame(l: seq<string>, x: string)
    ensures x in Firsts(l) <==> x in l
  {
    if l != [] {
      FirstsSame(l[..|l| - 1], x);
      assert l == l[..|l| - 1] + [l[|l| - 1]];
    }
  }

  /** The list without repetitions has the same elements, each once, in the order in which
      they first occur. */
  lemma {:induction false} FirstsKeep(l: seq<string>)
    ensures forall x :: x in Firsts(l) <==> x in l
    ensures forall a, b :: 0 <= a < b < |Firsts(l)| ==> First(l, Firsts(l)[a]) < First(l, Firsts(l)[b])
  {
    if l != [] {
      var n := |l| - 1;
      var r, last := Firsts(l[..n]), l[n];
      FirstsKeep(l[..n]);
      assert l == l[..n] + [last];
      forall a | 0 <= a < |r| ensures First(l, r[a]) == First(l[..n], r[a]) { FirstOfPrefix(l, n, r[a]); }
      if last !in l[..n] { assert First(l, last) == n; }
    }
  }

  /** getUniqueServers */
  method GetUniqueServers(serverList: seq<string>) returns (unique: seq<string>)
    ensures unique == Firsts(TrimAll(serverList))
  {
    var known: set<string> := {};
    unique := [];
    var all := TrimAll(serverList);
    var k := 0;
    while k < |serverList|
      invariant k <= |serverList| && unique == Firsts(all[..k])
      invariant forall x :: x in known <==> x in all[..k]
    {
      var s := Trim(serverList[k]);
      assert all[..k + 1] == all[..k] + [s];
      if s !in known {
        known := known + {s};
        unique := unique + [s];
      }
      k := k + 1;
    }
    assert all[..k] == all;
  }

  // ---- the handler ----

  datatype Request = Request(fname: string, servers: seq<string>)

  /** fuseConnectionHandler up to the choice of a server; None where it answers N or leaves. */
  method Receive(stream: string) returns (r: Option<Request>)
    ensures r == Parsed(stream)
  {
    var line := Line(stream);
    if line == None { return None; }
    var arr := Split(line.value);
    if |arr| < 3 { return None; }
    var servers := GetUniqueServers(arr[2..]);
    return Some(Request(Trim(arr[0]), servers));
  }

  function Parsed(stream: string): Option<Request> {
    match Line(stream)
    case None => None
    case Some(m) => if |Split(m)| < 3 then None else Some(Request(Trim(Split(m)[0]), Firsts(TrimAll(Split(m)[2..]))))
  }

  // ---- the round trip ----

  /** Neither a comma nor a newline. */
  predicate Plain(s: string) { ',' !in s && '\n' !in s }

  lemma {:induction false} LineEnds(s: string, rest: string)
    requires '\n' !in s
    ensures Line(s + "\n" + rest) == Some(s)
  {
    var t := s + "\n" + rest;
    if s != "" {
      LineEnds(s[1..], rest);
      assert t[1..] == s[1..] + "\n" + rest && [s[0]] + s[1..] == s;
    } else {
      assert t[0] == '\n';
    }
  }

  lemma {:induction false} SplitFirst(part: string, rest: string)
    requires ',' !in part
    ensures Split(part + "," + rest) == [part] + Split(rest)
  {
    var t := part + "," + rest;
    if part == "" {
      assert t[0] == ',' && t[1..] == rest;
    } else {
      SplitFirst(part[1..], rest);
      assert t[0] == part[0] && t[1..] == part[1..] + "," + rest;
      assert [part[0]] + part[1..] == part;
    }
  }

  lemma {:induction false} SplitOne(part: string)
    requires ',' !in part
    ensures Split(part) == [part]
  {
    if part != "" {
      SplitOne(part[1..]);
      assert [part[0]] + part[1..] == part;
    }
  }

  /** Splitting a joined list gives it back. */
  lemma {:induction false} SplitJoin(parts: seq<string>)
    requires parts != [] && forall k :: 0 <= k < |parts| ==> ',' !in parts[k]
    ensures Split(Join(parts)) == parts
  {
    if |parts| == 1 {
      SplitOne(parts[0]);
    } else {
      SplitJoin(parts[1..]);
      SplitFirst(parts[0], Join(parts[1..]));
    }
  }

  lemma {:induction false} JoinPlain(parts: seq<string>)
    requires forall k :: 0 <= k < |parts| ==> '\n' !in parts[k]
    ensures '\n' !in Join(parts)
  {
    if |parts| > 1 { JoinPlain(parts[1..]); }
  }

  function Message(path: string, number: string, list: string): string { path + "," + (number + "," + list) }

  lemma PrintedIsLine(path: string, end: nat, list: string, rest: string)
    ensures Printed(path, end, list) + rest == Message(path, Print(end), list) + "\n" + rest
  {
    hide Print;
    var number := Print(end);
    assert path + "," + number + "," + list == path + "," + (number + "," + list);
  }

  lemma MessageSplit(path: string, number: string, list: string)
    requires ',' !in path && ',' !in number
    ensures Split(Message(path, number, list)) == [path, number] + Split(list)
  {
    hide Split;
    SplitFirst(path, number + "," + list);
    SplitFirst(number, list);
    assert [path] + ([number] + Split(list)) == [path, number] + Split(list);
  }

  lemma MessageLine(path: string, number: string, list: string)
    ensures '\n' in Message(path, number, list) <==> '\n' in path || '\n' in number || '\n' in list
  {
  }

  /** What follows a message on the stream plays no part, nor does the number in it. */
  lemma MessageArrives(path: string, number: string, servers: seq<string>, next: string)
    requires Plain(path) && Plain(number) && servers != [] && forall k :: 0 <= k < |servers| ==> Plain(servers[k])
    ensures Parsed(Message(path, number, Join(servers)) + "\n" + next)
            == Some(Request(Trim(path), Firsts(TrimAll(servers))))
  {
    hide Join, Trim, TrimAll, Firsts, Line, Split, Message;
    JoinPlain(servers);
    MessageLine(path, number, Join(servers));
    LineEnds(Message(path, number, Join(servers)), next);
    MessageSplit(path, number, Join(servers));
    SplitJoin(servers);
  }

  lemma PrintedArrives(path: string, end: nat, servers: seq<string>, next: string)
    requires Plain(path) && servers != [] && forall k :: 0 <= k < |servers| ==> Plain(servers[k])
    ensures Parsed(Printed(path, end, Join(servers)) + next) == Some(Request(Trim(path), Firsts(TrimAll(servers))))
  {
    hide Join, Trim, TrimAll, Firsts, Parsed, Print, Message, Printed;
    PrintedIsLine(path, end, Join(servers), next);
    MessageArrives(path, Print(end), servers, next);
  }

  // ---- a request that does not fit ----

  lemma {:induction false} LineKeeps(p: string, rest: string)
    requires '\n' !in p
    ensures Line(p + rest).Some? ==> Line(rest).Some? && Line(p + rest).value == p + Line(rest).value
  {
    if p == "" { assert p + rest == rest; } else {
      LineKeeps(p[1..], rest);
      assert (p + rest)[1..] == p[1..] + rest && p == [p[0]] + p[1..];
    }
  }

  lemma {:induction false} SplitHead(p: string, rest: string)
    requires ',' !in p
    ensures Split(p + rest) == [p + Split(rest)[0]] + Split(rest)[1..]
  {
    if p == "" {
      assert p + rest == rest && p + Split(rest)[0] == Split(rest)[0];
    } else {
      SplitHead(p[1..], rest);
      assert (p + rest)[1..] == p[1..] + rest && p == [p[0]] + p[1..];
      assert [p[0]] + (p[1..] + Split(rest)[0]) == p + Split(rest)[0];
    }
  }

  /** A character is in one of the parts. */
  lemma {:induction false} SplitHas(s: string, c: char) returns (k: nat)
    requires c in s && c != ','
    ensures k < |Split(s)| && c in Split(s)[k]
  {
    if s[0] == c { k := 0; }
    else {
      assert s == [s[0]] + s[1..];
      var j := SplitHas(s[1..], c);
      k := if s[0] == ',' then j + 1 else j;
    }
  }

  lemma {:induction false} TrimLeftKeeps(s: string, c: char)
    requires !Space(c)
    ensures c in TrimLeft(s) <==> c in s
  {
    if s != "" && Space(s[0]) {
      TrimLeftKeeps(s[1..], c);
      assert s == [s[0]] + s[1..];
    }
  }

  lemma {:induction false} TrimRightKeeps(s: string, c: char)
    requires !Space(c)
    ensures c in TrimRight(s) <==> c in s
  {
    if s != "" && Space(s[|s| - 1]) {
      TrimRightKeeps(s[..|s| - 1], c);
      assert s == s[..|s| - 1] + [s[|s| - 1]];
    }
  }

  lemma TrimKeeps(s: string, c: char)
    requires !Space(c)
    ensures c in Trim(s) <==> c in s
  {
    TrimLeftKeeps(s, c);
    TrimRightKeeps(TrimLeft(s), c);
  }

  /** Lists without repetitions that are equal hold the same characters. */
  lemma ServersDiffer(parts: seq<string>, servers: seq<string>, k: nat)
    requires k < |parts| && '\0' in parts[k] && forall j :: 0 <= j < |servers| ==> '\0' !in servers[j]
    ensures Firsts(TrimAll(parts)) != Firsts(TrimAll(servers))
  {
    hide Firsts, Trim, TrimAll;
    var x := TrimAll(parts)[k];
    TrimKeeps(parts[k], '\0');
    FirstsSame(TrimAll(parts), x);
    FirstsSame(TrimAll(servers), x);
    forall j | 0 <= j < |servers| ensures Trim(servers[j]) != x { TrimKeeps(servers[j], '\0'); }
  }

  /** The cut is in the path: so is the terminator. */
  lemma CutInPath(path: string, pre: string, more: string, servers: seq<string>)
    requires Plain(pre) && '\0' !in path
    ensures Parsed(pre + "\0" + more) != Some(Request(path, Firsts(TrimAll(servers))))
  {
    hide Trim, TrimAll, Firsts, Split, Line;
    var p := pre + "\0";
    assert p[|pre|] == '\0';
    LineKeeps(p, more);
    if Line(p + more).Some? {
      var x := Line(more).value;
      SplitHead(p, x);
      TrimKeeps(Split(p + x)[0], '\0');
    }
  }

  lemma MessageLonger(path: string, number: string, l: string, x: string, y: string)
    ensures Message(path, number, l) + x + y == Message(path, number, l + x + y)
  {
  }

  /** It is in the servers: so is the terminator. */
  lemma CutInServers(path: string, number: string, l: string, more: string, servers: seq<string>)
    requires Plain(path) && Plain(number) && '\n' !in l && forall j :: 0 <= j < |servers| ==> '\0' !in servers[j]
    ensures Parsed(Message(path, number, l) + "\0" + more) != Some(Request(path, Firsts(TrimAll(servers))))
  {
    hide Trim, TrimAll, Firsts, Split, Line, Message;
    var p := Message(path, number, l) + "\0";
    MessageLine(path, number, l);
    LineKeeps(p, more);
    if Line(p + more).Some? {
      var y := l + "\0" + Line(more).value;
      MessageLonger(path, number, l, "\0", Line(more).value);
      MessageSplit(path, number, y);
      assert y[|l|] == '\0';
      var k := SplitHas(y, '\0');
      assert ([path, number] + Split(y))[2..] == Split(y);
      ServersDiffer(Split(y), servers, k);
    }
  }

  /** The terminator replaces a character of the number, or the comma after it. */
  predicate CutInNumber(path: string, end: nat) { |path| < BUFFER - 1 <= |path| + 1 + |Print(end)| }

  /** How a request that does not fit begins. */
  lemma Beginning(path: string, end: nat, list: string)
    requires |Printed(path, end, list)| >= BUFFER
    ensures var pre := Printed(path, end, list)[..BUFFER - 1];
            && (|path| >= BUFFER - 1 ==> pre == path[..BUFFER - 1])
            && (CutInNumber(path, end) ==>
                  BUFFER - 2 - |path| <= |Print(end)| && pre == path + "," + Print(end)[..BUFFER - 2 - |path|])
            && (BUFFER - 1 > |path| + 1 + |Print(end)| ==>
                  0 <= BUFFER - 3 - |path| - |Print(end)| <= |list| &&
                  pre == Message(path, Print(end), list[..BUFFER - 3 - |path| - |Print(end)|]))
  {
    hide Print;
    var number := Print(end);
    assert Printed(path, end, list) == path + ("," + number + "," + list + "\n");
    if CutInNumber(path, end) {
      assert Printed(path, end, list) == (path + ",") + (number + ("," + list + "\n"));
    } else if BUFFER - 1 > |path| + 1 + |number| {
      assert Printed(path, end, list) == (path + "," + number + ",") + (list + "\n");
      var k := BUFFER - 3 - |path| - |number|;
      assert Printed(path, end, list)[..BUFFER - 1] == path + "," + number + "," + list[..k];
      assert path + "," + number + "," + list[..k] == path + "," + (number + "," + list[..k]);
    }
  }

  /** With the terminator in the number, the bytes behind buf may happen to complete the request. */
  lemma Completed(path: string, end: nat, servers: seq<string>) returns (more: string)
    requires Plain(path) && Trim(path) == path && servers != []
    requires (forall k :: 0 <= k < |servers| ==> Plain(servers[k])) && CutInNumber(path, end)
    requires |Printed(path, end, Join(servers))| >= BUFFER
    ensures Parsed(Wire(Printed(path, end, Join(servers))) + more) == Some(Request(path, Firsts(TrimAll(servers))))
  {
    hide Join, Trim, TrimAll, Firsts, Parsed, Print, Printed;
    var s := Printed(path, end, Join(servers));
    Beginning(path, end, Join(servers));
    var number := Print(end)[..BUFFER - 2 - |path|] + "\0";
    more := "," + Join(servers) + "\n";
    assert forall c :: c in number ==> c in Print(end) || c == '\0';
    assert Wire(s) + more == path + "," + (number + "," + Join(servers)) + "\n" + "";
    MessageArrives(path, number, servers, "");
  }

  /** A request for a path without commas, newlines or blanks around it, to servers without
      commas or newlines, arrives as that path and those servers, trimmed and each once,
      whatever comes after it, if it fits the buffer.  One that does not fit never does,
      whatever lies behind the buffer and comes after it, unless it was cut off in the
      number; then it depends on that. */
  lemma RequestArrives(path: string, end: nat, servers: seq<string>)
    requires Plain(path) && Trim(path) == path && '\0' !in path && servers != []
    requires forall k :: 0 <= k < |servers| ==> Plain(servers[k]) && '\0' !in servers[k]
    ensures var s, sent := Printed(path, end, Join(servers)), Some(Request(path, Firsts(TrimAll(servers))));
            && (|s| < BUFFER ==> forall more :: Parsed(Wire(s) + more) == sent)
            && (|s| >= BUFFER && !CutInNumber(path, end) ==> forall more :: Parsed(Wire(s) + more) != sent)
            && (|s| >= BUFFER && CutInNumber(path, end) ==> exists more :: Parsed(Wire(s) + more) == sent)
  {
    hide Join, Trim, TrimAll, Firsts, Parsed, Print, Printed, Message;
    var s := Printed(path, end, Join(servers));
    if |s| < BUFFER {
      forall more { PrintedArrives(path, end, servers, more); }
    } else if CutInNumber(path, end) {
      var more := Completed(path, end, servers);
    } else {
      Beginning(path, end, Join(servers));
      JoinPlain(servers);
      forall more ensures Parsed(Wire(s) + more) != Some(Request(path, Firsts(TrimAll(servers)))) {
        if |path| >= BUFFER - 1 {
          CutInPath(path, path[..BUFFER - 1], more, servers);
        } else {
          CutInServers(path, Print(end), Join(servers)[..BUFFER - 3 - |path| - |Print(end)|], more, servers);
        }
      }
    }
  }

  /** A message of fewer than three parts is refused. */
  lemma MalformedRefused(m: string, rest: string)
    requires '\n' !in m && |Split(m)| < 3
    ensures Parsed(m + "\n" + rest) == None
  {
    LineEnds(m, rest);
  }
}
