/** utils/index.js: shell command strings for ssh and scp, and small text helpers.
    Running the commands, the ping loop, DNS and the file system are outside the
    model; their results are arguments. */
module Utils {
  import opened Js

  const SshOpts := "-o UserKnownHostsFile=/dev/null -o StrictHostKeyChecking=no"
  const DefaultUsername := "ubuntu"
  /** The replacement of one single quote: close the quote, a double-quoted quote, reopen. */
  const QuoteEscape := "'\"'\"'"

  /** `path.join(__dirname, '../keys/cm.pem')`, given the directory above utils/. */
  function DefaultKeyPath(root: string): string {
    root + "/keys/cm.pem"
  }

  // ---------------------------------------------------------------------------
  // Single-quote escaping

  function EscapeChar(c: char): string {
    if c == '\'' then QuoteEscape else [c]
  }

  /** `command.replace(/'/g, `'"'"'`)` */
  function Escape(s: string): (r: string)
    ensures '\'' !in s ==> r == s
    ensures |r| >= |s|
    decreases |s|
  {
    if s == [] then [] else EscapeChar(s[0]) + Escape(s[1..])
  }

  lemma {:induction false} EscapeAppend(a: string, b: string)
    ensures Escape(a + b) == Escape(a) + Escape(b)
    decreases |a|
  {
    if a != [] {
      var c, tail := a[0], a[1..];
      assert a == [c] + tail;
      assert a + b == [c] + (tail + b);
      EscapeAppend(tail, b);
      EscapeCons(c, tail + b);
      EscapeCons(c, tail);
      var x, y, z := EscapeChar(c), Escape(tail), Escape(b);
      assert x + (y + z) == (x + y) + z;
    } else {
      assert a + b == b;
    }
  }

  lemma EscapeCons(c: char, s: string)
    ensures Escape([c] + s) == EscapeChar(c) + Escape(s)
  {
    assert ([c] + s)[1..] == s;
  }

  /** Where the POSIX shell reader is inside a word: outside quotes, inside single
      quotes, inside double quotes. */
  datatype Mode = Bare | Single | Double

  /** How the shell reads one word made of quoted and unquoted parts (section 2.2 of
      the POSIX Shell Command Language): inside single quotes every character but
      the closing quote stands for itself; inside double quotes so does every
      character but the closing quote, `$`, a backquote and a backslash, which are
      refused here; outside quotes a quote opens a quoted part and blanks and the
      other special characters are refused.  None when the word is refused or a
      quote is left open. */
  function Read(t: string, mode: Mode, acc: string): Option<string>
    decreases |t|
  {
    if t == [] then (if mode == Bare then Some(acc) else None)
    else
      var c := t[0];
      match mode
      case Single => if c == '\'' then Read(t[1..], Bare, acc) else Read(t[1..], Single, acc + [c])
      case Double =>
        if c == '"' then Read(t[1..], Bare, acc)
        else if c in "$`\\" then None
        else Read(t[1..], Double, acc + [c])
      case Bare =>
        if c == '\'' then Read(t[1..], Single, acc)
        else if c == '"' then Read(t[1..], Double, acc)
        else if c in " \t\n;&|<>()$`\\*?[#~=%" then None
        else Read(t[1..], Bare, acc + [c])
  }

  /** The word `'<s>'` reads as `s`. */
  function Unquote(word: string): Option<string> {
    Read(word, Bare, "")
  }

  /** Inside single quotes an escaped text reads as the original text. */
  lemma {:induction false} ReadEscaped(s: string, rest: string, acc: string)
    ensures Read(Escape(s) + rest, Single, acc) == Read(rest, Single, acc + s)
    decreases |s|
  {
    if s != [] {
      var c := s[0];
      var t := Escape(s[1..]) + rest;
      assert Escape(s) + rest == EscapeChar(c) + t;
      ReadEscapedChar(c, t, acc);
      ReadEscaped(s[1..], rest, acc + [c]);
      assert acc + [c] + s[1..] == acc + s;
    } else {
      assert Escape(s) + rest == rest && acc + s == acc;
    }
  }

  /** Inside single quotes one escaped character reads as that character. */
  lemma ReadEscapedChar(c: char, t: string, acc: string)
    ensures Read(EscapeChar(c) + t, Single, acc) == Read(t, Single, acc + [c])
  {
    if c == '\'' {
      ReadQuoteEscape(t, acc);
    } else {
      assert EscapeChar(c) + t == [c] + t;
      assert ([c] + t)[1..] == t;
    }
  }

  /** Inside single quotes the replacement of a quote reads as one quote. */
  lemma ReadQuoteEscape(t: string, acc: string)
    ensures Read(QuoteEscape + t, Single, acc) == Read(t, Single, acc + "'")
  {
    var t4 := ['\''] + t;
    var t3 := ['"'] + t4;
    var t2 := ['\''] + t3;
    var t1 := ['"'] + t2;
    var t0 := ['\''] + t1;
    assert QuoteEscape + t == t0;
    assert t0[1..] == t1 && t1[1..] == t2 && t2[1..] == t3 && t3[1..] == t4 && t4[1..] == t;
    calc {
      Read(t0, Single, acc);
      Read(t1, Bare, acc);
      Read(t2, Double, acc);
      Read(t3, Double, acc + "'");
      Read(t4, Bare, acc + "'");
      Read(t, Single, acc + "'");
    }
  }

  /** Wrapping an escaped text in single quotes gives back exactly that text to the
      remote shell, whatever quotes it holds. */
  lemma QuoteRoundTrip(s: string)
    ensures Unquote("'" + Escape(s) + "'") == Some(s)
  {
    var w := ['\''] + (Escape(s) + "'");
    assert "'" + Escape(s) + "'" == w;
    assert Read(w, Bare, "") == Read(Escape(s) + "'", Single, "");
    ReadEscaped(s, "'", "");
    assert Read("'", Single, "" + s) == Read("", Bare, "" + s);
    assert "" + s == s;
  }

  // ---------------------------------------------------------------------------
  // ssh

  /** `_([commands]).flatten()`: a string or an array of commands; anything but a
      string among them makes `.replace` throw. */
  function CommandList(commands: Value): (r: Result<seq<string>>)
    ensures r.Ok? <==> forall i :: 0 <= i < |Wrap(commands)| ==> Wrap(commands)[i].Str?
    ensures r.Ok? ==> (|r.value| == |Wrap(commands)| &&
                       forall i :: 0 <= i < |r.value| ==> Wrap(commands)[i] == Str(r.value[i]))
  {
    var cs := Wrap(commands);
    if forall i :: 0 <= i < |cs| ==> cs[i].Str? then Ok(seq(|cs|, i requires 0 <= i < |cs| => cs[i].s))
    else Err("TypeError: command.replace is not a function")
  }

  function EscapeAll(cs: seq<string>): (r: seq<string>)
    ensures |r| == |cs| && forall i :: 0 <= i < |cs| ==> r[i] == Escape(cs[i])
  {
    seq(|cs|, i requires 0 <= i < |cs| => Escape(cs[i]))
  }

  /** The commands, each escaped, joined with `;` in order. */
  function RemoteCommand(cs: seq<string>): string {
    Join(EscapeAll(cs), ";")
  }

  /** Escaping the joined commands is joining the escaped commands. */
  lemma {:induction false} EscapeJoin(cs: seq<string>)
    ensures Escape(Join(cs, ";")) == RemoteCommand(cs)
    decreases |cs|
  {
    if |cs| > 1 {
      EscapeJoin(cs[1..]);
      EscapeAppend(cs[0] + ";", Join(cs[1..], ";"));
      EscapeAppend(cs[0], ";");
      assert Escape(";") == ";";
      assert EscapeAll(cs)[1..] == EscapeAll(cs[1..]);
    }
  }

  /** `ssh(hostname, commands, keyPath, username)`: the command line it runs once the
      host answers, with the key and user defaults applied. */
  function SshCommand(root: string, hostname: string, commands: Value,
                      keyPath: Option<string>, username: Option<string>): (r: Result<string>)
    ensures r.Ok? <==> CommandList(commands).Ok?
    ensures r.Ok? ==>
      var key := if keyPath.Some? then keyPath.value else DefaultKeyPath(root);
      var user := if username.Some? then username.value else DefaultUsername;
      r.value == "ssh " + SshOpts + " -ti " + key + " " + user + "@" + hostname + " '" +
                 RemoteCommand(CommandList(commands).value) + "'"
  {
    match CommandList(commands)
    case Err(m) => Err(m)
    case Ok(cs) =>
      var key := if keyPath.Some? then keyPath.value else DefaultKeyPath(root);
      var user := if username.Some? then username.value else DefaultUsername;
      Ok("ssh " + SshOpts + " -ti " + key + " " + user + "@" + hostname + " '" + RemoteCommand(cs) + "'")
  }

  /** The quoted argument of the ssh line reads, on the remote side, as the commands
      joined with `;`, in order. */
  lemma SshArgumentRoundTrip(cs: seq<string>)
    ensures Unquote("'" + RemoteCommand(cs) + "'") == Some(Join(cs, ";"))
  {
    EscapeJoin(cs);
    QuoteRoundTrip(Join(cs, ";"));
  }

  // ---------------------------------------------------------------------------
  // scp

  /** What `fs.statSync(localPath)` says about the local path. */
  datatype Stat = File | Directory | Other | Absent(reason: string)

  /** `scp <opts> -i <keyPath>` */
  function ScpBase(keyPath: string): string {
    "scp " + SshOpts + " -i " + keyPath
  }

  /** `<username>@<hostname>:<remotePath>` */
  function RemoteUrl(username: string, hostname: string, remotePath: string): string {
    username + "@" + hostname + ":" + remotePath
  }

  /** The scp command line, before output is silenced. */
  function ScpCommand(upload: bool, hostname: string, localPath: string, remotePath: string,
                      keyPath: string, username: string, stat: Stat): (r: Result<string>)
    ensures upload && stat.Absent? ==> r == Err(stat.reason)
    ensures upload && stat == Other ==> r == Err("Invalid localPath supplied: " + localPath)
    ensures upload && (stat == File || stat == Directory) ==>
      r == Ok(ScpBase(keyPath) + " " + (if stat == Directory then "-r" else "") + " " +
              localPath + " " + RemoteUrl(username, hostname, remotePath))
    ensures !upload ==>
      r == Ok(ScpBase(keyPath) + " " + RemoteUrl(username, hostname, remotePath) + " " + localPath)
  {
    var remoteUrl := RemoteUrl(username, hostname, remotePath);
    if upload then
      match stat
      case Absent(reason) => Err(reason)
      case Other => Err("Invalid localPath supplied: " + localPath)
      case _ => Ok(ScpBase(keyPath) + " " + (if stat == Directory then "-r" else "") + " " + localPath + " " + remoteUrl)
    else Ok(ScpBase(keyPath) + " " + remoteUrl + " " + localPath)
  }

  /** An upload passes `-r` exactly when the local path is a directory. */
  lemma UploadRecursiveIff(hostname: string, localPath: string, remotePath: string, keyPath: string,
                           username: string, stat: Stat)
    requires stat == File || stat == Directory
    ensures var r := ScpCommand(true, hostname, localPath, remotePath, keyPath, username, stat);
      r.Ok? && (stat == Directory <==> r.value[|ScpBase(keyPath)| + 1..|ScpBase(keyPath)| + 3] == "-r")
  {
    var r := ScpCommand(true, hostname, localPath, remotePath, keyPath, username, stat);
    var n := |ScpBase(keyPath)|;
    if stat == File {
      assert r.value[n..n + 2] == "  ";
      assert r.value[n + 1] == ' ';
    }
  }

  /** `${command} 1>/dev/null 2>/dev/null` */
  function Silenced(command: string): string {
    command + " 1>/dev/null 2>/dev/null"
  }

  /** The commands an scp transfer runs and how it settles. */
  datatype Transfer = Transfer(issued: seq<string>, outcome: Result<Value>)

  /** A failed transfer is run once more, and the second outcome is final. */
  function ScpRun(command: string, first: Result<Value>, second: Result<Value>): (r: Transfer)
    ensures 1 <= |r.issued| <= 2
    ensures forall i :: 0 <= i < |r.issued| ==> r.issued[i] == Silenced(command)
    ensures first.Ok? ==> |r.issued| == 1 && r.outcome == first
    ensures first.Err? ==> |r.issued| == 2 && r.outcome == second
  {
    if first.Ok? then Transfer([Silenced(command)], first)
    else Transfer([Silenced(command), Silenced(command)], second)
  }

  // ---------------------------------------------------------------------------
  // Text helpers

  predicate IsNewline(c: char) {
    c == '\n'
  }

  /** `_.trimEnd(s, '\n')`, as `pwd` and `read` apply it. */
  function TrimNewlines(s: string): (r: string)
    ensures |r| <= |s| && r == s[..|r|]
    ensures r == [] || r[|r| - 1] != '\n'
    ensures forall i :: |r| <= i < |s| ==> s[i] == '\n'
  {
    s[..|s| - TrailingCount(s, IsNewline)]
  }

  /** Trimming twice is trimming once. */
  lemma TrimNewlinesIdempotent(s: string)
    ensures TrimNewlines(TrimNewlines(s)) == TrimNewlines(s)
  {
    var r := TrimNewlines(s);
    assert TrailingCount(r, IsNewline) == 0;
  }

  /** A trailing newline is one more newline to trim. */
  lemma TrimDropsNewline(t: string)
    requires t != [] && t[|t| - 1] == '\n'
    ensures TrimNewlines(t) == TrimNewlines(t[..|t| - 1])
  {
    assert TrailingCount(t, IsNewline) == 1 + TrailingCount(t[..|t| - 1], IsNewline);
  }

  /** Any number of newlines added at the end is trimmed away again. */
  lemma {:induction false} TrimAddedNewlines(s: string, k: nat)
    ensures TrimNewlines(s + seq(k, _ => '\n')) == TrimNewlines(s)
    decreases k
  {
    if k > 0 {
      var t := s + seq(k, _ => '\n');
      assert t[..|t| - 1] == s + seq(k - 1, _ => '\n');
      TrimDropsNewline(t);
      TrimAddedNewlines(s, k - 1);
    } else {
      assert s + seq(k, _ => '\n') == s;
    }
  }

  /** `urlToIp(url)`: the name looked up is the URL's host name, or its path when it
      has none; with neither it fails before any lookup. */
  function LookupName(url: string, hostname: Value, path: Value): (r: Result<Value>)
    ensures Truthy(hostname) ==> r == Ok(hostname)
    ensures !Truthy(hostname) && Truthy(path) ==> r == Ok(path)
    ensures !Truthy(hostname) && !Truthy(path) ==> r == Err("Unable to parse URL: " + url)
  {
    if Truthy(hostname) then Ok(hostname)
    else if Truthy(path) then Ok(path)
    else Err("Unable to parse URL: " + url)
  }

  /** The address `urlToIp` settles with, given what the DNS lookup answers. */
  function UrlToIp(url: string, hostname: Value, path: Value, lookup: Value -> Result<Value>): (r: Result<Value>)
    ensures LookupName(url, hostname, path).Err? ==> r == LookupName(url, hostname, path)
    ensures LookupName(url, hostname, path).Ok? && lookup(LookupName(url, hostname, path).value).Err? ==>
      r == lookup(LookupName(url, hostname, path).value)
    ensures r.Ok? ==> Truthy(r.value) && r == lookup(LookupName(url, hostname, path).value)
    ensures (LookupName(url, hostname, path).Ok? && lookup(LookupName(url, hostname, path).value).Ok? &&
             !Truthy(lookup(LookupName(url, hostname, path).value).value)) ==> r == Err("Unable to resolve URL: " + url)
  {
    match LookupName(url, hostname, path)
    case Err(m) => Err(m)
    case Ok(name) =>
      match lookup(name)
      case Err(m) => Err(m)
      case Ok(address) => if Truthy(address) then Ok(address) else Err("Unable to resolve URL: " + url)
  }

  /** `tmpname()`: a hidden `.tmp` file named by a fresh identifier. */
  function TmpName(id: string): (r: string)
    ensures |r| == |id| + 5
    ensures r[0] == '.' && r[1..|r| - 4] == id && r[|r| - 4..] == ".tmp"
  {
    "." + id + ".tmp"
  }
}
