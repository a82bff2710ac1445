# syncd Feishu deploy notifier and MySQL DSN builder, modelled in Dafny

syncd is a deployment-management tool. When a deployment finishes, it posts a signed
"rich post" message to a Feishu webhook. This project models four parts of that:

- the lookup chain that gathers the apply, project, server groups, servers and user;
- the composer that lays the message out as seven rows of `text` / `a` cells;
- the signer that computes the webhook signature;
- the string builder for the MySQL data source name (DSN) the database connector opens.

Modules, one per file:

| file | module | models |
|---|---|---|
| `wrappers.dfy` | `Wrappers` | `Option` and `Result` |
| `strconv.dfy` | `Strconv` | Go's decimal rendering of integers (`strconv.Itoa`, `FormatInt(n, 10)`, `%d`, `%v`), with its inverse, the parser `ParseInt` |
| `strings.dfy` | `Strings` | `strings.Join`, `[]byte` of an ASCII string, a `byte` type, and a `Split` that the source does not call but that inverts `Join` in `SplitJoin` and `GroupNamesRecoverable` |
| `base64.dfy` | `Base64` | standard base 64 with padding (section 4 of RFC 4648), with its inverse, the decoder `Decode` |
| `feishu.dfy` | `Feishu` | `statusMap`, `applyLink`, `GenSign`, `NewMessage`, `sendToFeishu` |
| `db.dfy` | `Db` | `DB.parseConnConfig` |

How the pieces are modelled:

- **Composer (`NewMessage`)**: an imperative method.
  - `AllocateRows` is the source's `for i := 0; i < 7` loop over an `array<seq<Cell>>`.
  - `SetCell` is one indexed write `res[i][j] = c`. It records an index panic when the position lies outside the row. After a panic nothing more is written.
  - `WriteLeadingCells` and `WriteTrailingCells` are the source's writes, in the source's order. This includes the reallocation of row 0.
  - `BuildRows` runs the allocation and the writes, then appends the commit cell to row 1.
  - `Compose` computes the message kind, timestamp, signature and title, then calls `BuildRows`.
  - The outcome is `Built(request)` or `Panic(position)`.
  - `ExpectedContent` and `ExpectedRequest` are the reference definition of the seven rows and of the request.
- **Signer**: HMAC-SHA256 is a function parameter `hmac`.
  - The key `SignKey(secret, t)` is the decimal timestamp, a line feed, then the secret.
  - The MAC is taken over the empty message.
  - The result is the concrete base 64 encoding.
- **Lookup chain**: `Resolve` is the chain of lookups, stopping at the first that fails. `SendToFeishu` resolves, then composes, then yields the request to post. `Aborted` carries no message.
- **Clock and collaborators**: the clock is read twice in the source, so the timestamp (`now`) and the signing time (`signNow`) are separate inputs. The entity lookups and the commit message are fields of a `Repository` value.

Where the notifier's documented behaviour and its code disagree, the model follows the code:

- The labels are the code's Chinese texts, for example `服务名称: ` and `提交信息：`. The second has a full-width colon and no space.
- A status other than 0 or 1 gives the empty title, the zero value of a Go map lookup.
- The signature is computed from a second clock reading, not from the timestamp sent.
- The latest commit message is obtained without any failure case.
- Row 4 ("environment") is meant to end in a link. The code allocates only one cell for it, which is the finding below.

## Model

| member | source | states |
|---|---|---|
| `Strconv.FormatInt` | router/deploy/feishu.go:178 | the decimal text is non-empty and starts with `-` exactly for negative numbers, with only digits after the first character. It has no leading zero: it starts with `0` only when it is `0`, and a negative number's first digit is never `0` |
| `Strconv.ParseFormat` | router/deploy/feishu.go:212 | parsing the decimal text of any integer gives that integer back |
| `Strconv.ParseUnique` | router/deploy/feishu.go:212 | only the decimal text of `n` parses to `n`, so the parser rejects leading zeros and `-0` |
| `Strconv.ParseIffFormat` | router/deploy/feishu.go:51 | a string parses to `n` exactly when it is the decimal text of `n` |
| `Strconv.FormatIntInjective` | router/deploy/feishu.go:133 | two integers have the same decimal text exactly when they are equal |
| `Strings.AsciiBytes` | router/deploy/feishu.go:135 | `[]byte` of an ASCII string has one byte per character, holding its code |
| `Strings.AsciiBytesInjective` | router/deploy/feishu.go:135 | two ASCII strings have the same bytes exactly when they are equal |
| `Strings.Join` | router/deploy/feishu.go:103 | joining no parts gives the empty string; joining one part gives that part |
| `Strings.SplitJoin` | router/deploy/feishu.go:103 | for a non-empty list of parts and a single-character separator that no part contains, splitting the joined parts at the separator gives the parts back |
| `Base64.Encode` | router/deploy/feishu.go:140 | the encoding of `n` bytes has `4 * ((n + 2) / 3)` characters |
| `Base64.DecodeEncode` | router/deploy/feishu.go:140 | decoding the encoding of any byte string gives it back |
| `Base64.EncodeDecode` | router/deploy/feishu.go:140 | only the encoding of `b` decodes to `b`: the decoder rejects non-zero pad bits (section 3.5 of RFC 4648), so the encoding is the canonical standard text |
| `Base64.DecodeIffEncode` | router/deploy/feishu.go:140 | a text decodes to `b` exactly when it is the encoding of `b` |
| `Base64.EncodeInjective` | router/deploy/feishu.go:140 | two byte strings have the same encoding exactly when they are equal |
| `Base64.KnownAnswers` | router/deploy/feishu.go:140 | the encoder gives the test vectors of section 10 of RFC 4648: `Zg==`, `Zm8=`, `Zm9v` and `Zm9vYmFy` |
| `Base64.EncodePadding` | router/deploy/feishu.go:140 | whole groups have no `=`; one leftover byte ends in `==`; two leftover bytes end in a single `=` |
| `Feishu.Title` | router/deploy/feishu.go:180 | the title is the `statusMap` entry for the status; it is empty exactly when the status has no entry |
| `Feishu.TitleTable` | router/deploy/feishu.go:24-27 | status 1 gives 部署成功, status 0 gives 部署失败, any other status gives "" |
| `Feishu.ApplyLink` | router/deploy/feishu.go:50-52 | the link is the public host, then `/deploy/deploy?id=`, then text that parses back to the apply id |
| `Feishu.ApplyLinkExact` | router/deploy/feishu.go:50-52 | the link is the host, the deploy path and a text `t` exactly when `t` is the decimal text of the id |
| `Feishu.ApplyLinkInjective` | router/deploy/feishu.go:50-52 | on one host, two applies get the same link exactly when their ids are equal |
| `Feishu.SignKey` | router/deploy/feishu.go:133-135 | the key is the bytes of the timestamp's decimal text (only `-` and digits), a line feed, then the secret bytes |
| `Feishu.SignKeyInjective` | router/deploy/feishu.go:133 | the HMAC key `decimal(timestamp) + "\n" + secret` determines both the secret and the timestamp |
| `Feishu.GenSign` | router/deploy/feishu.go:131-142 | signing never fails, and the signature decodes to the HMAC of the empty message under that key |
| `Feishu.SignatureIsEncoding` | router/deploy/feishu.go:134-141 | the signature is the one text that decodes to the MAC, which is its standard base 64 encoding |
| `Feishu.SignaturesAgree` | router/deploy/feishu.go:134-140 | two signatures are equal exactly when the two MACs of the empty message are equal; identical (secret, timestamp) give identical signatures |
| `Feishu.SignatureShape` | router/deploy/feishu.go:140 | a 32-byte MAC gives a 44-character signature ending in exactly one `=` |
| `Feishu.Version` | router/deploy/feishu.go:198-201 | the version is the commit version when it is non-empty, and the branch name otherwise |
| `Feishu.ContentShape` | router/deploy/feishu.go:183-242 | seven rows; rows 4 and 5 have two cells; rows 0, 2, 3 and 6 have one; row 1 has two exactly when there is a commit version; every tag is `text` or `a` |
| `Feishu.VersionRow` | router/deploy/feishu.go:198-242 | row 1 shows the commit version if there is one, else the branch; with a commit it gains the cell `commitVersion:` + commit |
| `Feishu.LinkRows` | router/deploy/feishu.go:218-231 | rows 4 and 5 end in the same `a` cell labelled 部署链接, whose href is the apply's deploy link, with the id in its exact decimal text (`Feishu.ApplyLinkExact`) |
| `Feishu.RequestFields` | router/deploy/feishu.go:177-180 | the kind is `post`; the timestamp parses back to the first clock reading, so it is its decimal text (`Strconv.ParseUnique`); the signature decodes to the MAC for the second reading, so it is its standard encoding (`Feishu.SignatureIsEncoding`) |
| `Feishu.ExampleMessage` | router/deploy/feishu.go:192-222 | for apply 42 of project `checkout` on branch `main`, the title and rows 0, 1, 3 and 4 have the expected texts and link |
| `Feishu.AllocateRows` | router/deploy/feishu.go:183-190 | exactly seven fresh rows of zero cells; row 5 has two cells, every other row one (row 4 two as well in the corrected allocation) |
| `Feishu.SetCell` | router/deploy/feishu.go:218-222 | an in-range write replaces exactly that cell. An out-of-range write records the first panic and changes nothing, as does any write after a panic. Other rows are untouched |
| `Feishu.WriteLeadingCells` | router/deploy/feishu.go:192-217 | row 0 becomes its single name cell; rows 1 to 4 get as first cell the version (`Version`), the commit message, the decimal server count and the group names; no write panics; rows 5 and 6 are untouched |
| `Feishu.WriteTrailingCells` | router/deploy/feishu.go:218-235 | a one-cell row 4 panics at (4, 1) and no row changes; with rows wide enough, the link, detail and publisher cells are written; rows 0 to 3 are untouched |
| `Feishu.BuildRows` | router/deploy/feishu.go:183-242 | with the allocation as written the rows end in the panic at (4, 1); with row 4 allocated for two cells the rows are exactly the expected seven |
| `Feishu.Compose` | router/deploy/feishu.go:175-246 | with the allocation as written the result is the panic at (4, 1); with row 4 allocated for two cells it is exactly the expected request |
| `Feishu.NewMessageAsWritten` | router/deploy/feishu.go:183-222 | every call of `NewMessage` as written ends in the index panic at `res[4][1]` |
| `Feishu.NewMessage` | router/deploy/feishu.go:175-246 | the corrected `NewMessage` builds exactly the expected request |
| `Feishu.GroupNames` | router/deploy/feishu.go:79-82 | one name per group, in the order the groups are given |
| `Feishu.Resolve` | router/deploy/feishu.go:58-105 | the lookups run in source order and resolution stops at the first that fails: each stage is reported exactly when every earlier lookup succeeded and that one failed |
| `Feishu.ResolveSucceeds` | router/deploy/feishu.go:58-105 | resolution succeeds exactly when all five lookups succeed; the context then holds the looked-up apply, project, number of servers, comma-joined group names, user name and commit message |
| `Feishu.GroupNamesRecoverable` | router/deploy/feishu.go:79-103 | for a non-empty list of groups whose names contain no comma, splitting the joined names gives the names back |
| `Feishu.EventLink` | router/deploy/feishu.go:61-66 | when the apply lookup returns the apply it was asked for, both link cells point at the event's own apply id |
| `Feishu.SendToFeishu` | router/deploy/feishu.go:58-110 | a failed lookup aborts at that lookup, before any message exists. Otherwise the composer as written crashes at (4, 1), and the corrected one yields the expected request for the webhook URL. When the apply lookup keeps the id, a posted message has its two link cells on the event's apply |
| `Db.ConnHost` | db.go:47-52 | the address is `unix(...)` around the socket path exactly when one is configured. Otherwise it is `tcp(` + host + `:`, then text that parses back to the port, then `)`; by `Strconv.ParseUnique` that text is the port's decimal text |
| `Db.TcpAddressExact` | db.go:50-51 | over tcp, the address is `tcp(` + host + `:` + `t` + `)` exactly when `t` is the port's decimal text |
| `Db.ParseConnConfig` | db.go:53-54 | the DSN is `user:pass@` + address + `/` + database + `?charset=` + charset, and it ends with `&parseTime=True&loc=Local` |
| `Db.UnixPrecedence` | db.go:48-52 | when a socket is configured, changing host or port does not change the DSN |
| `Db.SameDsnSameAddress` | db.go:53 | two DSNs that agree in credentials, database and charset are equal only if their addresses are equal |
| `Db.TcpAddressDeterminesPort` | db.go:51 | two tcp addresses on the same host are equal only if the ports are equal |
| `Db.TcpPortDistinguishes` | db.go:50-53 | over tcp, configurations that differ only in the port give different DSNs |

## Findings

| source | as written | input that shows it | evidently intended | confidence | as-written member | corrected member |
|---|---|---|---|---|---|---|
| router/deploy/feishu.go:183-222 | The allocation loop gives only row 5 two cells. Row 4 gets one cell, and then `res[4][1]` is written. | Every call of `NewMessage`, i.e. every notification whose lookups all succeed. The write at line 218 is out of range, so the notifier goroutine panics and with it the process. | Row 4 (environment) is also allocated for two cells, so it holds the group names and the deploy link. | not executed | `Feishu.NewMessageAsWritten` | `Feishu.NewMessage` |

## Left out

- Goroutine launch: the exported Go `SendToFeishu` (router/deploy/feishu.go:54-56) only starts the unexported `sendToFeishu` in a goroutine. That is concurrency. The Dafny method `Feishu.SendToFeishu` models the unexported `sendToFeishu` (lines 58-110), run once per call.
- The HTTP leg (router/deploy/feishu.go:117-128): building the request, the `Content-Type` header, `client.Do`, closing the body, and `log.Fatal` on a transport error. This is network I/O and process exit. `Posted(url, body)` stands for the request handed to that leg.
- `json.Marshal` (router/deploy/feishu.go:112) and its error return, including the `omitempty` tags: library reflection. The model keeps the grid of cells, not the wire bytes.
- `log.Print` of the group-lookup error (router/deploy/feishu.go:76): logging.
- HMAC-SHA256: its internals are left out; it is taken as the parameter `hmac`. No reference signature vector can be checked for that reason.
- Feishu.GenSign: states the signature in terms of the given `hmac`, not of SHA-256 itself. The error branch of `h.Write` is not modelled because that write cannot fail.
- `time.Now`, `command.CommitMsg`, the `syncd.App` configuration and the entity `Detail` / `Get...ByIds` calls are inputs. The clock readings are `now` and `signNow`, the rest come from `Repository` and `AppConfig`.
- Group order: `GroupGetMapByIds` returns a Go map, whose iteration order is unspecified. The groups are an input sequence in whatever order the iteration yields, and nothing is claimed about that order.
- Strings: Go strings are bytes; the model uses character strings for message texts, where only emptiness and concatenation matter. The signing secret is modelled as bytes.
- Rows as values: each inner slice is modelled as a value in the row array. The source allocates every row afresh, so no two rows share storage. Aliasing between rows is therefore not modelled.
- Integer width: `int` and `int64` values are unbounded integers here. They are only printed in decimal, so no overflow arises.
- `SendFeishuReq` (router/deploy/feishu.go:160-173): declared but never used.
- `NewDatabase`, `DB.Open` and `DB.Close` (db.go:21-44): the gorm connection and pool settings are I/O and library state. The pool fields are kept in `DbConfig`, but nothing reads them.
