/** The URL of a broker, as SMQ_init takes it apart. A string ends before its terminating zero. */
module Url {
  datatype Target =
    | InvalidUrl
    | BufferOverflow
    | Underrun                // the scan reads in front of the string
    | Target(name: string, host: string, port: nat, path: string)

  predicate IsDigit(c: char) { '0' <= c <= '9' }

  predicate AllDigits(s: string) { forall i :: 0 <= i < |s| ==> IsDigit(s[i]) }

  function Decimal(s: string): nat
    requires AllDigits(s)
  {
    if |s| == 0 then 0 else 10 * Decimal(s[..|s| - 1]) + (s[|s| - 1] as int - '0' as int)
  }

  /** Ten for the digit before the last, and so on. */
  lemma LastTwoDigits(s: string, a: char, b: char)
    requires AllDigits(s) && IsDigit(a) && IsDigit(b)
    ensures AllDigits(s + [a, b]) && Decimal([a]) == a as int - 48
    ensures Decimal(s + [a, b]) == 100 * Decimal(s) + 10 * Decimal([a]) + Decimal([b])
  {
    var t := s + [a, b];
    assert t[..|t| - 1] == s + [a] && (s + [a])[..|s|] == s;
    assert Decimal([]) == 0 && [a][..0] == [] && [b][..0] == [];
  }

  /** The authority ends in a port, and its colon is at k. */
  predicate PortAt(authority: string, k: nat) {
    k + 1 < |authority| && authority[k] == ':' && forall i :: k < i < |authority| ==> IsDigit(authority[i])
  }

  ghost predicate NoPort(authority: string) { forall k: nat :: !PortAt(authority, k) }

  function Port(authority: string, k: nat): nat
    requires PortAt(authority, k)
  {
    Decimal(authority[k + 1..]) % 0x1_0000
  }

  /** Host and port of an authority. */
  ghost predicate Splits(authority: string, host: string, port: nat) {
    || (NoPort(authority) && host == authority && port == 80)
    || (PortAt(authority, |host|) && host == authority[..|host|] && port == Port(authority, |host|))
  }

  /** No authority can be split in two ways. */
  lemma SplitsOnce(authority: string, host: string, port: nat, h: string, p: nat)
    requires Splits(authority, host, port)
    ensures Splits(authority, h, p) <==> h == host && p == port
  {
    if PortAt(authority, |host|) && PortAt(authority, |h|) {
      assert |h| == |host|;
    }
  }

  /** Where the host starts. */
  function Base(url: string): (r: nat)
    ensures r <= |url|
  {
    if "http://" <= url then 7 else 0
  }

  /** strchr for a slash: the first one at or after from, or the end. */
  function Slash(url: string, from: nat): (r: nat)
    requires from <= |url|
    ensures from <= r <= |url| && (r < |url| ==> url[r] == '/')
    ensures forall i :: from <= i < r ==> url[i] != '/'
    decreases |url| - from
  {
    if from == |url| || url[from] == '/' then from else Slash(url, from + 1)
  }

  function Authority(url: string): string { url[Base(url)..Slash(url, Base(url))] }

  function Path(url: string): string { url[Slash(url, Base(url))..] }

  lemma ReduceFirst(x: nat, d: nat)
    ensures (10 * (x % 0x1_0000) + d) % 0x1_0000 == (10 * x + d) % 0x1_0000
  {
    var q := x / 0x1_0000;
    assert 10 * x + d == 10 * (x % 0x1_0000) + d + 0x1_0000 * (10 * q);
  }

  /** The port number, on sixteen bits. */
  method ReadPort(digits: string) returns (port: nat)
    requires AllDigits(digits)
    ensures port == Decimal(digits) % 0x1_0000
  {
    port := 0;
    for i := 0 to |digits|
      invariant port == Decimal(digits[..i]) % 0x1_0000
    {
      var d := digits[i] as int - '0' as int;
      assert digits[..i + 1][..i] == digits[..i];
      ReduceFirst(Decimal(digits[..i]), d);
      port := (10 * port + d) % 0x1_0000;
    }
    assert digits[..|digits|] == digits;
  }

  /** The backward scan over digits: where the last other character is. In front of an authority that is
      all digits lies what precedes the host in the URL, or nothing. */
  method ScanDigits(url: string, base: nat, path: nat) returns (e: int)
    requires base + 1 <= path <= |url| && (base > 0 ==> !IsDigit(url[base - 1])) && IsDigit(url[path - 1])
    ensures -1 <= e < path - 1 && base - 1 <= e && (base > 0 ==> 0 <= e)
    ensures forall i :: e < i < path ==> IsDigit(url[i])
    ensures e >= 0 ==> !IsDigit(url[e])
  {
    e := path - 2;
    while e >= 0 && IsDigit(url[e])
      invariant -1 <= e < path - 1 && base - 1 <= e && (base > 0 ==> 0 <= e)
      invariant forall i :: e < i < path ==> IsDigit(url[i])
    {
      e := e - 1;
    }
  }

  /** The host and the port. */
  method Scan(url: string, base: nat, path: nat) returns (eohn: nat, port: nat, underrun: bool)
    requires base <= path <= |url| && (base > 0 ==> url[base - 1] == '/')
    ensures underrun <==> base == 0 && path > 0 && AllDigits(url[..path])
    ensures !underrun ==> base <= eohn <= path && Splits(url[base..path], url[base..eohn], port)
  {
    eohn, port, underrun := path, 80, false;
    ghost var authority := url[base..path];
    if path > base && IsDigit(url[path - 1]) {
      var e := ScanDigits(url, base, path);
      if e < 0 {
        return eohn, port, true;
      }
      assert !IsDigit(url[..path][e]);
      if url[e] == ':' {
        port := ReadColon(url, base, path, e);
        return e, port, false;
      }
      NoColon(authority, e - base);
    }
    assert NoPort(authority);
  }

  method ReadColon(url: string, base: nat, path: nat, e: nat) returns (port: nat)
    requires base <= e < path - 1 && path <= |url| && url[e] == ':'
    requires forall i :: e < i < path ==> IsDigit(url[i])
    ensures Splits(url[base..path], url[base..e], port)
  {
    ghost var authority := url[base..path];
    port := ReadPort(url[e + 1..path]);
    assert url[e + 1..path] == authority[e - base + 1..];
    assert authority[..e - base] == url[base..e];
    assert PortAt(authority, e - base);
  }

  lemma NoColon(authority: string, e: int)
    requires -1 <= e < |authority| - 1
    requires forall i :: e < i < |authority| ==> IsDigit(authority[i])
    requires e >= 0 ==> !IsDigit(authority[e]) && authority[e] != ':'
    ensures NoPort(authority)
  {
  }

  /** SMQ_init, up to the connection. */
  method Take(url: string, bufLen: nat) returns (r: Target)
    ensures r == InvalidUrl <==> !("http://" <= url) && "https:" <= url
    ensures r == Underrun <==> Base(url) == 0 && !("https:" <= url) && |Authority(url)| > 0 && AllDigits(Authority(url))
    ensures r.Target? ==> Splits(Authority(url), r.host, r.port) && r.path == Path(url)
    ensures r.Target? ==> r.name == r.host[..|r.host| % 0x1_0000] && |r.name| + 1 < bufLen
    ensures r == BufferOverflow ==>
      exists host, port :: Splits(Authority(url), host, port) && bufLen <= |host| % 0x1_0000 + 1
  {
    var base := 0;
    if "http://" <= url {
      base := 7;
    } else if "https:" <= url {
      return InvalidUrl;
    }
    var path := Slash(url, base);
    var eohn, port, underrun := Scan(url, base, path);
    assert Authority(url) == url[base..path];
    if underrun {
      return Underrun;
    }
    var host := url[base..eohn];
    var bufIx := |host| % 0x1_0000;
    if bufIx + 1 >= bufLen {
      return BufferOverflow;
    }
    return Target(host[..bufIx], host, port, url[path..]);
  }

  // Printing and parsing

  function Digits(n: nat): (s: string)
    ensures |s| > 0 && AllDigits(s)
  {
    var d := [(n % 10 + '0' as int) as char];
    if n < 10 then d else Digits(n / 10) + d
  }

  lemma {:induction false} DecimalOfDigits(n: nat)
    ensures Decimal(Digits(n)) == n
  {
    var s := Digits(n);
    if n >= 10 {
      DecimalOfDigits(n / 10);
      assert s[..|s| - 1] == Digits(n / 10);
    }
  }

  /** A host has no slash; a path is empty or starts with one. */
  predicate Printable(host: string, path: string) {
    && (forall i :: 0 <= i < |host| ==> host[i] != '/')
    && (|path| > 0 ==> path[0] == '/')
  }

  lemma {:induction false} SlashAfter(url: string, from: nat, at: nat)
    requires from <= at <= |url| && (forall i :: from <= i < at ==> url[i] != '/') && (at < |url| ==> url[at] == '/')
    ensures Slash(url, from) == at
  {
    assert Slash(url, from) >= at;
  }

  lemma Parts(authority: string, path: string)
    requires Printable(authority, path)
    ensures var url := "http://" + authority + path; Base(url) == 7 && Authority(url) == authority && Path(url) == path
  {
    var url := "http://" + authority + path;
    assert url[..7] == "http://";
    SlashAfter(url, 7, 7 + |authority|);
  }

  /** Printing host, port and path and taking the text apart again gives them back, for any host without a
      slash, digits and colons included. */
  lemma PrintParse(host: string, port: nat, path: string, h: string, p: nat)
    requires Printable(host, path) && port < 0x1_0000
    ensures var url := "http://" + (host + ":" + Digits(port)) + path;
            Path(url) == path && (Splits(Authority(url), h, p) <==> h == host && p == port)
  {
    var authority := host + ":" + Digits(port);
    AuthorityOf(host, port);
    Parts(authority, path);
    SplitsOnce(authority, host, port, h, p);
  }

  lemma AuthorityOf(host: string, port: nat)
    requires port < 0x1_0000
    ensures Splits(host + ":" + Digits(port), host, port)
    ensures (forall i :: 0 <= i < |host| ==> host[i] != '/') ==> Printable(host + ":" + Digits(port), "")
  {
    var digits := Digits(port);
    var authority := host + ":" + digits;
    assert authority[|host| + 1..] == digits && authority[..|host|] == host;
    DecimalOfDigits(port);
    assert PortAt(authority, |host|);
  }

  /** Printed without a port, a host is given back if and only if it does not itself end in one. */
  lemma PrintParseDefault(host: string, path: string)
    requires Printable(host, path)
    ensures Splits(Authority("http://" + host + path), host, 80) <==> NoPort(host)
  {
    Parts(host, path);
  }
}
