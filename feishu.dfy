/**
 The Feishu deployment notifier: the title table, the deploy link, the webhook signature, the
 seven-row rich-post message and the chain of entity lookups that feeds it.
 */
module Feishu {
  import opened Wrappers
  import opened Strings
  import Strconv
  import Base64

  /** The title for each deployment outcome: 1 is success, 0 is failure. */
  const StatusMap: map<int, string> := map[1 := "部署成功", 0 := "部署失败"]

  /** The path, below the public host, of the page that shows one apply. */
  const DeployPath: string := "/deploy/deploy?id="

  /** The label of the link cells. */
  const LinkLabel: string := "部署链接"

  /** The label of row 0, the service name. */
  const NameLabel: string := "服务名称: "

  /** The label of row 1, the service version. */
  const VersionLabel: string := "服务版本: "

  /** The label of the extra cell of row 1, the commit. */
  const CommitVersionLabel: string := "commitVersion:"

  /** The label of row 2, the latest commit message (a full-width colon, no space). */
  const CommitMsgLabel: string := "提交信息："

  /** The label of row 3, the number of servers. */
  const ServerNumsLabel: string := "实例数量: "

  /** The label of row 4, the server groups. */
  const GroupLabel: string := "运行环境: "

  /** The text of the first cell of row 5, the deploy detail. */
  const DetailLabel: string := "部署详情: "

  /** The label of row 6, the publisher. */
  const UserLabel: string := "发布人: "

  /** A deployment event: which apply, the deploy mode, its outcome status and a title. */
  datatype DeployMessage = DeployMessage(applyId: int, mode: int, status: int, title: string)

  /** A deployment request; `commitVersion` is empty when the apply names only a branch. */
  datatype Apply = Apply(id: int, projectId: int, userId: int, branchName: string, commitVersion: string)

  /** A project with the ids of the server groups it deploys to online. */
  datatype Project = Project(id: int, name: string, onlineCluster: seq<int>)

  datatype ServerGroup = ServerGroup(id: int, name: string)

  datatype Server = Server(id: int, groupId: int)

  datatype User = User(id: int, username: string)

  /** The process-wide configuration the notifier reads: public host, webhook URL, signing secret. */
  datatype AppConfig = AppConfig(appHost: string, feishuUrl: string, feishuSign: seq<byte>)

  /** Everything the message is built from, once every lookup has succeeded. */
  datatype MessageConf = MessageConf(
    msg: DeployMessage,
    apply: Apply,
    project: Project,
    serverNums: int,
    userName: string,
    groupName: string,
    commitMsg: string)

  /** One cell of a rich-post row: tag "text" or "a", its text and, for a link, its target. */
  datatype Cell = Cell(tag: string, text: string, href: string)

  /** The zero value of a cell, which fills freshly allocated rows. */
  const ZeroCell: Cell := Cell("", "", "")

  /** The request body: message kind, title, rows of cells, timestamp and signature. */
  datatype FeiShuReq = FeiShuReq(
    msgType: string,
    title: string,
    content: seq<seq<Cell>>,
    timestamp: string,
    sign: string)

  /** A cell position `res[row][col]`. */
  datatype Position = Position(row: nat, col: nat)

  /** What composing yields: the request, or the index panic that ended the composition. */
  datatype Composed = Built(req: FeiShuReq) | Panic(at: Position)

  /** HMAC-SHA256 as a function of key and message, taken as given. */
  type Hmac = (seq<byte>, seq<byte>) -> seq<byte>

  // ---------------------------------------------------------------------------------------------
  // Title, link and signature

  /** The title: a lookup in `StatusMap`, with the empty string for any other status. */
  function Title(status: int): (t: string)
    ensures t != "" <==> status in StatusMap
    ensures status in StatusMap ==> t == StatusMap[status]
  {
    if status in StatusMap then StatusMap[status] else ""
  }

  lemma TitleTable(status: int)
    ensures Title(1) == "部署成功" && Title(0) == "部署失败"
    ensures status != 0 && status != 1 ==> Title(status) == ""
  {
  }

  /** The deploy page of an apply: the public host, the deploy path and the decimal id. */
  function ApplyLink(appHost: string, applyId: int): (link: string)
    ensures |link| > |appHost + DeployPath|
    ensures link[..|appHost + DeployPath|] == appHost + DeployPath
    ensures Strconv.ParseInt(link[|appHost + DeployPath|..]) == Some(applyId)
  {
    Strconv.ParseFormat(applyId);
    var prefix := appHost + DeployPath;
    var s := prefix + Strconv.FormatInt(applyId);
    assert s[|prefix|..] == Strconv.FormatInt(applyId);
    s
  }

  lemma ApplyLinkInjective(appHost: string, a: int, b: int)
    ensures ApplyLink(appHost, a) == ApplyLink(appHost, b) <==> a == b
  {
    var n := |appHost + DeployPath|;
    if ApplyLink(appHost, a) == ApplyLink(appHost, b) {
      assert ApplyLink(appHost, a)[n..] == ApplyLink(appHost, b)[n..];
    }
  }

  /** The text after the deploy path is the link of the apply exactly when it is the id's decimal text. */
  lemma ApplyLinkExact(appHost: string, applyId: int, idText: string)
    ensures ApplyLink(appHost, applyId) == appHost + DeployPath + idText <==> idText == Strconv.FormatInt(applyId)
  {
    var n := |appHost + DeployPath|;
    var link := ApplyLink(appHost, applyId);
    if link == appHost + DeployPath + idText {
      assert link[n..] == idText;
      Strconv.ParseUnique(idText, applyId);
    } else {
      assert link[n..] == Strconv.FormatInt(applyId) by {
        Strconv.ParseUnique(link[n..], applyId);
      }
      assert link == link[..n] + link[n..];
    }
  }

  /**
   The HMAC key: the decimal timestamp, a line feed, then the secret. The timestamp part is the
   bytes of the decimal text of `timestamp`, only `-` and digits, so the first line feed ends it.
   */
  function SignKey(secret: seq<byte>, timestamp: int): (key: seq<byte>)
    ensures var n := |key| - |secret| - 1;
      && n >= 1
      && key[n] == 10 && key[n + 1..] == secret
      && forall i :: 0 <= i < n ==> key[i] == 45 || 48 <= key[i] <= 57
    ensures var d := Strconv.FormatInt(timestamp);
      && |key| - |secret| - 1 == |d|
      && forall i :: 0 <= i < |d| ==> key[i] as int == d[i] as int
  {
    var d := Strconv.FormatInt(timestamp);
    var key := AsciiBytes(d) + [10] + secret;
    assert forall i :: 0 <= i < |d| ==> key[i] as int == d[i] as int && Strconv.IsDecimalChar(d[i]);
    assert key[|d| + 1..] == secret;
    key
  }

  /** The key determines both the secret and the timestamp. */
  lemma SignKeyInjective(s1: seq<byte>, t1: int, s2: seq<byte>, t2: int)
    ensures SignKey(s1, t1) == SignKey(s2, t2) <==> s1 == s2 && t1 == t2
  {
    var d1, d2 := Strconv.FormatInt(t1), Strconv.FormatInt(t2);
    assert SignKey(s1, t1) == AsciiBytes(d1) + [10] + s1;
    assert SignKey(s2, t2) == AsciiBytes(d2) + [10] + s2;
    if SignKey(s1, t1) == SignKey(s2, t2) {
      KeyPartsInjective(d1, s1, d2, s2);
      Strconv.FormatIntInjective(t1, t2);
    }
  }

  /** A decimal text, a line feed and a secret: the bytes determine the text and the secret. */
  lemma KeyPartsInjective(d1: string, s1: seq<byte>, d2: string, s2: seq<byte>)
    requires forall i :: 0 <= i < |d1| ==> Strconv.IsDecimalChar(d1[i])
    requires forall i :: 0 <= i < |d2| ==> Strconv.IsDecimalChar(d2[i])
    requires IsAscii(d1) && IsAscii(d2)
    requires AsciiBytes(d1) + [10] + s1 == AsciiBytes(d2) + [10] + s2
    ensures d1 == d2 && s1 == s2
  {
    assert 10 !in AsciiBytes(d1) by {
      forall i | 0 <= i < |d1| ensures AsciiBytes(d1)[i] != 10 {
        assert Strconv.IsDecimalChar(d1[i]);
      }
    }
    assert 10 !in AsciiBytes(d2) by {
      forall i | 0 <= i < |d2| ensures AsciiBytes(d2)[i] != 10 {
        assert Strconv.IsDecimalChar(d2[i]);
      }
    }
    SeparatorInjective(AsciiBytes(d1), 10, s1, AsciiBytes(d2), s2);
    AsciiBytesInjective(d1, d2);
  }

  /**
   The webhook signature: the base 64 text of the HMAC-SHA256, under `SignKey`, of the EMPTY
   message. Writing the empty message into the MAC cannot fail, so the result is never an error.
   */
  function GenSign(secret: seq<byte>, timestamp: int, hmac: Hmac): (r: Result<string, string>)
    ensures r.Ok?
    ensures Base64.Decode(r.value) == Some(hmac(SignKey(secret, timestamp), []))
  {
    var sum := hmac(SignKey(secret, timestamp), []);
    Base64.DecodeEncode(sum);
    Ok(Base64.Encode(sum))
  }

  /** The signature is the one base 64 text that decodes to the MAC: the standard encoding of it. */
  lemma SignatureIsEncoding(secret: seq<byte>, timestamp: int, hmac: Hmac, sig: string)
    ensures Base64.Decode(sig) == Some(hmac(SignKey(secret, timestamp), []))
        <==> sig == GenSign(secret, timestamp, hmac).value
    ensures GenSign(secret, timestamp, hmac).value == Base64.Encode(hmac(SignKey(secret, timestamp), []))
  {
    var mac := hmac(SignKey(secret, timestamp), []);
    Base64.EncodeDecode(GenSign(secret, timestamp, hmac).value, mac);
    Base64.DecodeIffEncode(sig, mac);
  }

  /** Two signatures agree exactly when the two MACs of the empty message agree. */
  lemma SignaturesAgree(s1: seq<byte>, t1: int, s2: seq<byte>, t2: int, hmac: Hmac)
    ensures GenSign(s1, t1, hmac) == GenSign(s2, t2, hmac)
        <==> hmac(SignKey(s1, t1), []) == hmac(SignKey(s2, t2), [])
  {
    Base64.EncodeInjective(hmac(SignKey(s1, t1), []), hmac(SignKey(s2, t2), []));
  }

  /** A 32-byte SHA-256 MAC gives 44 characters, the last one padding. */
  lemma SignatureShape(secret: seq<byte>, timestamp: int, hmac: Hmac)
    requires |hmac(SignKey(secret, timestamp), [])| == 32
    ensures var sig := GenSign(secret, timestamp, hmac).value;
      |sig| == 44 && sig[42] != '=' && sig[43] == '='
  {
    Base64.EncodePadding(hmac(SignKey(secret, timestamp), []));
  }

  // ---------------------------------------------------------------------------------------------
  // The message

  function TextCell(text: string): Cell {
    Cell("text", text, "")
  }

  function LinkCell(text: string, href: string): Cell {
    Cell("a", text, href)
  }

  /** The version shown in row 1: the commit when the apply has one, else the branch. */
  function Version(apply: Apply): (v: string)
    ensures apply.commitVersion != "" ==> v == apply.commitVersion
    ensures apply.commitVersion == "" ==> v == apply.branchName
  {
    if |apply.commitVersion| > 0 then apply.commitVersion else apply.branchName
  }

  /** The seven rows the message is meant to carry. */
  function ExpectedContent(conf: MessageConf, appHost: string): seq<seq<Cell>> {
    var link := LinkCell(LinkLabel, ApplyLink(appHost, conf.apply.id));
    var cv := conf.apply.commitVersion;
    [ [TextCell(NameLabel + conf.project.name)],
      [TextCell(VersionLabel + Version(conf.apply))]
        + (if |cv| > 0 then [TextCell(CommitVersionLabel + cv)] else []),
      [TextCell(CommitMsgLabel + conf.commitMsg)],
      [TextCell(ServerNumsLabel + Strconv.FormatInt(conf.serverNums))],
      [TextCell(GroupLabel + conf.groupName), link],
      [TextCell(DetailLabel), link],
      [TextCell(UserLabel + conf.userName)] ]
  }

  /** The whole request: kind "post", the title, the rows, the first clock reading and the signature. */
  function ExpectedRequest(conf: MessageConf, app: AppConfig, now: int, signNow: int, hmac: Hmac): FeiShuReq {
    var sign := match GenSign(app.feishuSign, signNow, hmac) case Ok(s) => s case Err(_) => "";
    FeiShuReq("post", Title(conf.msg.status), ExpectedContent(conf, app.appHost), Strconv.FormatInt(now), sign)
  }

  /** Seven rows; rows 4 and 5 have two cells; row 1 has two exactly when there is a commit. */
  lemma ContentShape(conf: MessageConf, appHost: string)
    ensures var c := ExpectedContent(conf, appHost);
      && |c| == 7
      && |c[0]| == |c[2]| == |c[3]| == |c[6]| == 1
      && |c[4]| == |c[5]| == 2
      && (|c[1]| == 2 <==> conf.apply.commitVersion != "")
      && (|c[1]| == 1 <==> conf.apply.commitVersion == "")
      && forall i, j :: 0 <= i < |c| && 0 <= j < |c[i]| ==> c[i][j].tag in {"text", "a"}
  {
  }

  /** Row 1 shows the commit when there is one and otherwise the branch. */
  lemma VersionRow(conf: MessageConf, appHost: string)
    ensures var row := ExpectedContent(conf, appHost)[1];
      && (conf.apply.commitVersion != "" ==>
            row == [TextCell(VersionLabel + conf.apply.commitVersion),
                    TextCell(CommitVersionLabel + conf.apply.commitVersion)])
      && (conf.apply.commitVersion == "" ==> row == [TextCell(VersionLabel + conf.apply.branchName)])
  {
  }

  /** Rows 4 and 5 end in the same link, to the deploy page of the apply. */
  lemma LinkRows(conf: MessageConf, appHost: string)
    ensures var c := ExpectedContent(conf, appHost);
      && c[4][1] == c[5][1]
      && c[5][1].tag == "a" && c[5][1].text == LinkLabel
      && c[5][1].href[..|appHost + DeployPath|] == appHost + DeployPath
      && Strconv.ParseInt(c[5][1].href[|appHost + DeployPath|..]) == Some(conf.apply.id)
  {
  }

  /** The request is a "post" whose timestamp reads back as the first clock reading and whose
      signature decodes to the MAC for the second. */
  lemma RequestFields(conf: MessageConf, app: AppConfig, now: int, signNow: int, hmac: Hmac)
    ensures var req := ExpectedRequest(conf, app, now, signNow, hmac);
      && req.msgType == "post"
      && req.title == Title(conf.msg.status)
      && Strconv.ParseInt(req.timestamp) == Some(now)
      && Base64.Decode(req.sign) == Some(hmac(SignKey(app.feishuSign, signNow), []))
  {
    Strconv.ParseFormat(now);
  }

  /** A successful deployment of branch `main` of project `checkout`, apply 42, on two groups. */
  lemma ExampleMessage()
    ensures var conf := MessageConf(
        DeployMessage(42, 0, 1, ""),
        Apply(42, 7, 9, "main", ""),
        Project(7, "checkout", [1, 2]),
        3, "alice", Join(["prod", "staging"], ","), "fix bug");
      var c := ExpectedContent(conf, "https://deploy.example");
      && Title(conf.msg.status) == "部署成功"
      && c[0] == [TextCell(NameLabel + "checkout")]
      && c[1] == [TextCell(VersionLabel + "main")]
      && c[3] == [TextCell(ServerNumsLabel + "3")]
      && c[4] == [TextCell(GroupLabel + "prod,staging"),
                  LinkCell(LinkLabel, "https://deploy.example/deploy/deploy?id=42")]
  {
    ExampleValues();
  }

  lemma ExampleValues()
    ensures Strconv.FormatInt(3) == "3"
    ensures Join(["prod", "staging"], ",") == "prod,staging"
    ensures ApplyLink("https://deploy.example", 42) == "https://deploy.example/deploy/deploy?id=42"
  {
    assert ["prod", "staging"][1..] == ["staging"];
    FortyTwo();
  }

  lemma FortyTwo()
    ensures Strconv.FormatInt(42) == "42"
  {
    assert Strconv.NatDigits(42) == Strconv.NatDigits(4) + [Strconv.Digit(2)];
  }

  /** A row of `n` zero cells, as `make([]content, n)` allocates it. */
  function Zeros(n: nat): (row: seq<Cell>)
    ensures |row| == n && forall j :: 0 <= j < n ==> row[j] == ZeroCell
  {
    seq(n, _ => ZeroCell)
  }

  /**
   The length the allocation loop gives row `i`: two cells for row 5 and one for every other
   row as the loop is written; with `intended`, row 4 gets two cells as well.
   */
  function AllocatedWidth(i: int, intended: bool): nat {
    if i == 5 || (intended && i == 4) then 2 else 1
  }

  /** The seven rows, each allocated with `AllocatedWidth` zero cells. */
  method AllocateRows(intended: bool) returns (res: array<seq<Cell>>)
    ensures fresh(res) && res.Length == 7
    ensures forall i :: 0 <= i < 7 ==> res[i] == Zeros(AllocatedWidth(i, intended))
  {
    res := new seq<Cell>[7](_ => []);
    for i := 0 to 7
      invariant forall k :: 0 <= k < i ==> res[k] == Zeros(AllocatedWidth(k, intended))
    {
      if i == 5 || (intended && i == 4) {
        res[i] := Zeros(2);
        continue;
      }
      res[i] := Zeros(1);
    }
  }

  /**
   The write `res[i][j] = c`. It panics when the position is outside the rows; after a panic
   nothing more is written and the first panic is kept.
   */
  method SetCell(res: array<seq<Cell>>, i: nat, j: nat, c: Cell, panic: Option<Position>)
    returns (panic': Option<Position>)
    modifies res
    ensures forall k :: 0 <= k < res.Length && k != i ==> res[k] == old(res[k])
    ensures panic.Some? ==> panic' == panic && unchanged(res)
    ensures panic.None? && i < res.Length && j < |old(res[i])| ==>
      panic' == None && res[i] == old(res[i])[j := c]
    ensures panic.None? && !(i < res.Length && j < |old(res[i])|) ==>
      panic' == Some(Position(i, j)) && unchanged(res)
  {
    panic' := panic;
    if panic.None? {
      if i < res.Length && j < |res[i]| {
        res[i] := res[i][j := c];
      } else {
        panic' := Some(Position(i, j));
      }
    }
  }

  /**
   The writes of the source's lines for rows 0 to 4: row 0 reallocated with one cell, then the
   first cell of rows 0 to 4. Every row has at least one cell, so none of these writes panics.
   */
  method WriteLeadingCells(res: array<seq<Cell>>, conf: MessageConf, appHost: string)
    returns (panic: Option<Position>)
    requires res.Length == 7 && forall k :: 0 <= k < 7 ==> |res[k]| >= 1
    modifies res
    ensures panic == None
    ensures res[0] == [TextCell(NameLabel + conf.project.name)]
    ensures res[1] == old(res[1])[0 := TextCell(VersionLabel + Version(conf.apply))]
    ensures res[2] == old(res[2])[0 := TextCell(CommitMsgLabel + conf.commitMsg)]
    ensures res[3] == old(res[3])[0 := TextCell(ServerNumsLabel + Strconv.FormatInt(conf.serverNums))]
    ensures res[4] == old(res[4])[0 := TextCell(GroupLabel + conf.groupName)]
    ensures res[5] == old(res[5]) && res[6] == old(res[6])
  {
    panic := None;
    res[0] := Zeros(1);
    panic := SetCell(res, 0, 0, TextCell(NameLabel + conf.project.name), panic);
    var commitVersion := conf.apply.branchName;
    if |conf.apply.commitVersion| > 0 {
      commitVersion := conf.apply.commitVersion;
    }
    panic := SetCell(res, 1, 0, TextCell(VersionLabel + commitVersion), panic);
    panic := SetCell(res, 2, 0, TextCell(CommitMsgLabel + conf.commitMsg), panic);
    panic := SetCell(res, 3, 0, TextCell(ServerNumsLabel + Strconv.FormatInt(conf.serverNums)), panic);
    panic := SetCell(res, 4, 0, TextCell(GroupLabel + conf.groupName), panic);
  }

  /**
   The writes of the source's lines for the link of row 4, row 5 and row 6, in that order. The
   first of them panics when row 4 has a single cell.
   */
  method WriteTrailingCells(res: array<seq<Cell>>, conf: MessageConf, appHost: string)
    returns (panic: Option<Position>)
    requires res.Length == 7
    modifies res
    ensures |old(res[4])| < 2 ==> panic == Some(Position(4, 1)) && unchanged(res)
    ensures |old(res[4])| >= 2 && |old(res[5])| >= 2 && |old(res[6])| >= 1 ==>
      && panic == None
      && res[4] == old(res[4])[1 := ExpectedContent(conf, appHost)[4][1]]
      && res[5] == old(res[5])[0 := ExpectedContent(conf, appHost)[5][0]][1 := ExpectedContent(conf, appHost)[5][1]]
      && res[6] == old(res[6])[0 := ExpectedContent(conf, appHost)[6][0]]
    ensures forall k :: 0 <= k < 4 ==> res[k] == old(res[k])
  {
    panic := None;
    panic := SetCell(res, 4, 1, LinkCell(LinkLabel, ApplyLink(appHost, conf.apply.id)), panic);
    panic := SetCell(res, 5, 0, TextCell(DetailLabel), panic);
    panic := SetCell(res, 5, 1, LinkCell(LinkLabel, ApplyLink(appHost, conf.apply.id)), panic);
    panic := SetCell(res, 6, 0, TextCell(UserLabel + conf.userName), panic);
  }

  /**
   The rows of the message: allocate them, write every cell by index, append the commit cell to
   row 1. As written (`intended` false) the write `res[4][1]` falls outside the one-cell row 4
   and panics; with row 4 allocated for two cells the rows are the expected ones.
   */
  method BuildRows(conf: MessageConf, appHost: string, intended: bool)
    returns (rows: seq<seq<Cell>>, panic: Option<Position>)
    ensures !intended ==> panic == Some(Position(4, 1))
    ensures intended ==> panic == None && rows == ExpectedContent(conf, appHost)
  {
    var res := AllocateRows(intended);
    panic := WriteLeadingCells(res, conf, appHost);
    panic := WriteTrailingCells(res, conf, appHost);
    if panic.Some? {
      return [], panic;
    }
    if |conf.apply.commitVersion| > 0 {
      res[1] := res[1] + [TextCell(CommitVersionLabel + conf.apply.commitVersion)];
    }
    rows := res[..];
    ghost var expected := ExpectedContent(conf, appHost);
    assert rows[0] == expected[0] && rows[1] == expected[1] && rows[2] == expected[2];
    assert rows[3] == expected[3] && rows[4] == expected[4] && rows[5] == expected[5];
    assert rows[6] == expected[6];
    SevenRows(rows, expected);
  }

  /**
   The composer: the message kind, the timestamp, the signature and the title, then the rows.
   As written the rows end in the panic at (4, 1); with row 4 allocated for two cells the request
   is the expected one.
   */
  method Compose(conf: MessageConf, app: AppConfig, now: int, signNow: int, hmac: Hmac, intended: bool)
    returns (out: Composed)
    ensures !intended ==> out == Panic(Position(4, 1))
    ensures intended ==> out == Built(ExpectedRequest(conf, app, now, signNow, hmac))
  {
    var msgType := "post";
    var timestamp := Strconv.FormatInt(now);
    var sign := match GenSign(app.feishuSign, signNow, hmac) case Ok(s) => s case Err(_) => "";
    var title := Title(conf.msg.status);
    var rows, panic := BuildRows(conf, app.appHost, intended);
    if panic.Some? {
      return Panic(panic.value);
    }
    out := Built(FeiShuReq(msgType, title, rows, timestamp, sign));
  }

  /** Two seven-row grids that agree row by row are equal. */
  lemma SevenRows(rows: seq<seq<Cell>>, expected: seq<seq<Cell>>)
    requires |rows| == 7 && |expected| == 7
    requires rows[0] == expected[0] && rows[1] == expected[1] && rows[2] == expected[2]
    requires rows[3] == expected[3] && rows[4] == expected[4] && rows[5] == expected[5]
    requires rows[6] == expected[6]
    ensures rows == expected
  {
    assert forall k | 0 <= k < 7 :: rows[k] == expected[k];
  }

  /** `NewMessage` as the source writes it: every call ends in the index panic at `res[4][1]`. */
  method NewMessageAsWritten(conf: MessageConf, app: AppConfig, now: int, signNow: int, hmac: Hmac)
    returns (out: Composed)
    ensures out == Panic(Position(4, 1))
  {
    out := Compose(conf, app, now, signNow, hmac, false);
  }

  /** `NewMessage` with row 4 allocated for its two cells: it builds the expected request. */
  method NewMessage(conf: MessageConf, app: AppConfig, now: int, signNow: int, hmac: Hmac)
    returns (out: Composed)
    ensures out == Built(ExpectedRequest(conf, app, now, signNow, hmac))
  {
    out := Compose(conf, app, now, signNow, hmac, true);
  }

  // ---------------------------------------------------------------------------------------------
  // The lookup chain and the dispatch

  /**
   The entity lookups the notifier performs, each of which may fail, and the latest commit
   message. `groupGetMapByIds` yields the groups in the unspecified order of a map iteration.
   */
  datatype Repository = Repository(
    applyDetail: int -> Option<Apply>,
    projectDetail: int -> Option<Project>,
    groupGetMapByIds: seq<int> -> Option<seq<ServerGroup>>,
    serverGetListByGroupIds: seq<int> -> Option<seq<Server>>,
    userDetail: int -> Option<User>,
    commitMsg: string)

  /** The lookup at which resolution stopped. */
  datatype Stage = ApplyDetail | ProjectDetail | GroupLookup | ServerLookup | UserDetail

  /** What one notification comes to: stopped at a lookup, ended by a panic, or the request to post. */
  datatype Dispatch = Aborted(stage: Stage) | Crashed(at: Position) | Posted(url: string, body: FeiShuReq)

  function GroupNames(groups: seq<ServerGroup>): (names: seq<string>)
    ensures |names| == |groups|
    ensures forall i :: 0 <= i < |groups| ==> names[i] == groups[i].name
  {
    if |groups| == 0 then [] else [groups[0].name] + GroupNames(groups[1..])
  }

  /**
   The lookups in the order the source makes them, stopping at the first that fails: the apply
   of the event, its project, the project's online groups, their servers, the apply's user.
   */
  function Resolve(msg: DeployMessage, repo: Repository): (r: Result<MessageConf, Stage>)
    ensures var a := repo.applyDetail(msg.applyId);
      && (a.None? <==> r == Err(ApplyDetail))
      && (a.Some? ==>
            var p := repo.projectDetail(a.value.projectId);
            && (p.None? <==> r == Err(ProjectDetail))
            && (p.Some? ==>
                  var ids := p.value.onlineCluster;
                  && (repo.groupGetMapByIds(ids).None? <==> r == Err(GroupLookup))
                  && (repo.groupGetMapByIds(ids).Some? ==>
                        && (repo.serverGetListByGroupIds(ids).None? <==> r == Err(ServerLookup))
                        && (repo.serverGetListByGroupIds(ids).Some? ==>
                              (repo.userDetail(a.value.userId).None? <==> r == Err(UserDetail))))))
  {
    match repo.applyDetail(msg.applyId)
    case None => Err(ApplyDetail)
    case Some(apply) =>
      match repo.projectDetail(apply.projectId)
      case None => Err(ProjectDetail)
      case Some(project) =>
        match repo.groupGetMapByIds(project.onlineCluster)
        case None => Err(GroupLookup)
        case Some(groups) =>
          match repo.serverGetListByGroupIds(project.onlineCluster)
          case None => Err(ServerLookup)
          case Some(servers) =>
            match repo.userDetail(apply.userId)
            case None => Err(UserDetail)
            case Some(user) =>
              Ok(MessageConf(msg, apply, project, |servers|, user.username,
                             Join(GroupNames(groups), ","), repo.commitMsg))
  }

  /**
   Resolution succeeds exactly when every lookup does, and the context then holds what they
   returned: the number of servers, the group names joined by commas, the user's name.
   */
  lemma ResolveSucceeds(msg: DeployMessage, repo: Repository)
    ensures Resolve(msg, repo).Ok? <==>
      && repo.applyDetail(msg.applyId).Some?
      && var apply := repo.applyDetail(msg.applyId).value;
         && repo.projectDetail(apply.projectId).Some?
         && var ids := repo.projectDetail(apply.projectId).value.onlineCluster;
            && repo.groupGetMapByIds(ids).Some?
            && repo.serverGetListByGroupIds(ids).Some?
            && repo.userDetail(apply.userId).Some?
    ensures Resolve(msg, repo).Ok? ==>
      var conf := Resolve(msg, repo).value;
      && conf.msg == msg
      && Some(conf.apply) == repo.applyDetail(msg.applyId)
      && Some(conf.project) == repo.projectDetail(conf.apply.projectId)
      && conf.serverNums == |repo.serverGetListByGroupIds(conf.project.onlineCluster).value|
      && conf.groupName == Join(GroupNames(repo.groupGetMapByIds(conf.project.onlineCluster).value), ",")
      && Some(conf.userName) == (match repo.userDetail(conf.apply.userId) case Some(u) => Some(u.username) case None => None)
      && conf.commitMsg == repo.commitMsg
  {
  }

  /** The apply lookup returns the apply it was asked for, as `Apply{ID: msg.ApplyId}.Detail()` does. */
  ghost predicate KeepsApplyId(repo: Repository) {
    forall id :: repo.applyDetail(id).Some? ==> repo.applyDetail(id).value.id == id
  }

  /** With such a lookup, both link cells of the message point at the event's own apply. */
  lemma EventLink(msg: DeployMessage, repo: Repository, appHost: string)
    requires KeepsApplyId(repo) && Resolve(msg, repo).Ok?
    ensures var c := ExpectedContent(Resolve(msg, repo).value, appHost);
      c[4][1].href == c[5][1].href == ApplyLink(appHost, msg.applyId)
  {
    assert repo.applyDetail(msg.applyId).Some?;
  }

  /** When no group name holds a comma, the joined names split back into the groups' names. */
  lemma GroupNamesRecoverable(groups: seq<ServerGroup>)
    requires |groups| >= 1
    requires forall i :: 0 <= i < |groups| ==> ',' !in groups[i].name
    ensures Split(Join(GroupNames(groups), ","), ',') == GroupNames(groups)
  {
    SplitJoin(GroupNames(groups), ',');
  }

  /**
   `sendToFeishu` up to the HTTP call: resolve, and return at the first failed lookup before any
   message exists; otherwise compose and hand the request to the webhook URL. A composition that
   panics ends the dispatch.
   */
  method SendToFeishu(msg: DeployMessage, repo: Repository, app: AppConfig, now: int, signNow: int,
                      hmac: Hmac, intended: bool)
    returns (out: Dispatch)
    ensures out.Aborted? <==> Resolve(msg, repo).Err?
    ensures out.Aborted? ==> out.stage == Resolve(msg, repo).error
    ensures Resolve(msg, repo).Ok? && !intended ==> out == Crashed(Position(4, 1))
    ensures Resolve(msg, repo).Ok? && intended ==>
      out == Posted(app.feishuUrl, ExpectedRequest(Resolve(msg, repo).value, app, now, signNow, hmac))
    ensures out.Posted? && KeepsApplyId(repo) ==>
      && |out.body.content| == 7 && |out.body.content[4]| == 2 && |out.body.content[5]| == 2
      && out.body.content[4][1] == out.body.content[5][1] == LinkCell(LinkLabel, ApplyLink(app.appHost, msg.applyId))
  {
    var conf := Resolve(msg, repo);
    if conf.Err? {
      return Aborted(conf.error);
    }
    var req := Compose(conf.value, app, now, signNow, hmac, intended);
    if req.Panic? {
      return Crashed(req.at);
    }
    out := Posted(app.feishuUrl, req.req);
    if KeepsApplyId(repo) {
      EventLink(msg, repo, app.appHost);
    }
  }
}
