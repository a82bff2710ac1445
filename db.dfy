/** The MySQL data source name the database connector opens. */
module Db {
  import opened Wrappers
  import Strconv

  /**
   The database configuration. The pool settings are read only when the connection is opened,
   which is outside this model.
   */
  datatype DbConfig = DbConfig(
    host: string,
    port: int,
    unix: string,
    user: string,
    pass: string,
    dbName: string,
    charset: string,
    maxIdleConns: int,
    maxOpenConns: int,
    connMaxLifeTime: int)

  const DsnSuffix: string := "&parseTime=True&loc=Local"

  /**
   The server address: the socket path in `unix(...)` when one is configured, otherwise
   `tcp(host:port)` with the port in decimal.
   */
  function ConnHost(cfg: DbConfig): (h: string)
    ensures |h| >= 5 && h[|h| - 1] == ')'
    ensures (h[..5] == "unix(") <==> cfg.unix != ""
    ensures cfg.unix != "" ==> h[5..|h| - 1] == cfg.unix
    ensures cfg.unix == "" ==>
      && |h| > |cfg.host| + 6
      && h[..|cfg.host| + 5] == "tcp(" + cfg.host + ":"
      && Strconv.ParseInt(h[|cfg.host| + 5..|h| - 1]) == Some(cfg.port)
  {
    if cfg.unix != "" then
      "unix(" + cfg.unix + ")"
    else
      var prefix := "tcp(" + cfg.host + ":";
      var d := Strconv.FormatInt(cfg.port);
      var h := prefix + d + ")";
      assert h[|prefix|..|h| - 1] == d;
      assert h[..|prefix|] == prefix;
      assert h[0] == 't';
      Strconv.ParseFormat(cfg.port);
      h
  }

  /** Over tcp, the address is `tcp(host:` + port text + `)` exactly for the port's decimal text. */
  lemma TcpAddressExact(cfg: DbConfig, portText: string)
    requires cfg.unix == ""
    ensures ConnHost(cfg) == "tcp(" + cfg.host + ":" + portText + ")" <==> portText == Strconv.FormatInt(cfg.port)
  {
    var h := ConnHost(cfg);
    var n := |cfg.host| + 5;
    if h == "tcp(" + cfg.host + ":" + portText + ")" {
      assert h[n..|h| - 1] == portText;
      Strconv.ParseUnique(portText, cfg.port);
    } else {
      Strconv.ParseUnique(h[n..|h| - 1], cfg.port);
      assert h == h[..n] + h[n..|h| - 1] + [h[|h| - 1]];
    }
  }

  /** `user:pass@address/dbname?charset=...&parseTime=True&loc=Local`. */
  function ParseConnConfig(cfg: DbConfig): (dsn: string)
    ensures var head := cfg.user + ":" + cfg.pass + "@" + ConnHost(cfg) + "/" + cfg.dbName + "?charset=";
      && |dsn| == |head| + |cfg.charset| + |DsnSuffix|
      && dsn[..|head|] == head
      && dsn[|head|..|head| + |cfg.charset|] == cfg.charset
      && dsn[|dsn| - |DsnSuffix|..] == DsnSuffix
  {
    var head := cfg.user + ":" + cfg.pass + "@" + ConnHost(cfg) + "/" + cfg.dbName + "?charset=";
    var s := head + cfg.charset + DsnSuffix;
    assert s[..|head|] == head;
    assert s[|head|..|head| + |cfg.charset|] == cfg.charset;
    assert s[|s| - |DsnSuffix|..] == DsnSuffix;
    s
  }

  /** With a socket configured, host and port play no part. */
  lemma UnixPrecedence(cfg: DbConfig, host: string, port: int)
    requires cfg.unix != ""
    ensures ParseConnConfig(cfg.(host := host, port := port)) == ParseConnConfig(cfg)
  {
  }

  /** Two names with the same credentials, database and charset share their address too. */
  lemma SameDsnSameAddress(a: DbConfig, b: DbConfig)
    requires a.user == b.user && a.pass == b.pass && a.dbName == b.dbName && a.charset == b.charset
    requires ParseConnConfig(a) == ParseConnConfig(b)
    ensures ConnHost(a) == ConnHost(b)
  {
    DsnParts(a);
    DsnParts(b);
    MiddleDetermined(Lead(a), ConnHost(a), ConnHost(b), Tail(a));
  }

  /** What precedes the address in the name. */
  function Lead(cfg: DbConfig): string {
    cfg.user + ":" + cfg.pass + "@"
  }

  /** What follows the address in the name. */
  function Tail(cfg: DbConfig): string {
    "/" + cfg.dbName + "?charset=" + cfg.charset + DsnSuffix
  }

  lemma DsnParts(cfg: DbConfig)
    ensures ParseConnConfig(cfg) == Lead(cfg) + ConnHost(cfg) + Tail(cfg)
  {
    var l, h := Lead(cfg), ConnHost(cfg);
    assert ParseConnConfig(cfg) == l + h + "/" + cfg.dbName + "?charset=" + cfg.charset + DsnSuffix;
    Reassociate(l + h, "/", cfg.dbName, "?charset=", cfg.charset, DsnSuffix);
  }

  lemma Reassociate<T>(p: seq<T>, a: seq<T>, b: seq<T>, c: seq<T>, d: seq<T>, e: seq<T>)
    ensures p + a + b + c + d + e == p + (a + b + c + d + e)
  {
  }

  /** Equal strings of the shape `lead + x + tail` and `lead + y + tail` have `x == y`. */
  lemma MiddleDetermined<T>(lead: seq<T>, x: seq<T>, y: seq<T>, tail: seq<T>)
    requires lead + x + tail == lead + y + tail
    ensures x == y
  {
    var d := lead + x + tail;
    assert |x| == |y|;
    assert x == d[|lead|..|lead| + |x|];
    assert y == (lead + y + tail)[|lead|..|lead| + |y|];
  }

  /** Over tcp, the address determines the port. */
  lemma TcpAddressDeterminesPort(a: DbConfig, b: DbConfig)
    requires a.unix == "" && b.unix == "" && a.host == b.host
    requires ConnHost(a) == ConnHost(b)
    ensures a.port == b.port
  {
    var h := ConnHost(a);
    var n := |a.host| + 5;
    assert Strconv.ParseInt(h[n..|h| - 1]) == Some(a.port);
    assert Strconv.ParseInt(h[n..|h| - 1]) == Some(b.port);
  }

  /** Over tcp, two configurations that differ only in the port give different names. */
  lemma TcpPortDistinguishes(cfg: DbConfig, port: int)
    requires cfg.unix == ""
    ensures ParseConnConfig(cfg.(port := port)) == ParseConnConfig(cfg) <==> port == cfg.port
  {
    var other := cfg.(port := port);
    if ParseConnConfig(other) == ParseConnConfig(cfg) {
      SameDsnSameAddress(other, cfg);
      TcpAddressDeterminesPort(other, cfg);
    }
  }
}
