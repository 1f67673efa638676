/** The WebHDFS client (fs/controler/hadoop_controller.go): request URLs of the form
    `<scheme>://<host>:<port>/webhdfs/v1<path>?[user.name=<user>&]op=<OP>[&<name>=<value>...]`,
    parameter defaults, and the classification of a reply into a result or an error.
    An HTTP exchange is an abstract Response: a transport failure, or a status code together
    with the body decoded as a HadoopException and as the call's own payload. */
module Hadoop {
  import opened GoInts
  import opened Strconv
  import opened Errors
  import opened FileModels

  const LISTSTATUS_BATCH: string := "LISTSTATUS_BATCH"
  const GETFILESTATUS: string := "GETFILESTATUS"
  const READ: string := "OPEN"
  const MKDIRS: string := "MKDIRS"

  const DEFAULT_BUFFERSIZE: int := 4096
  const DEFAULT_LENGTH: int := 4096

  /** One HTTP exchange. `exception` is the body decoded as a HadoopException (its
      RemoteException.exception field), None when that decoding fails; `body` is the body as the
      call reads it on success. */
  datatype Response<T> =
    | TransportFailure
    | Reply(status: int, exception: Option<string>, body: T)

  /** The decoded LISTSTATUS_BATCH reply: one page of records and the count still to come. */
  datatype Batch = Batch(files: seq<FileModel>, remainingEntries: int)

  /** The condition a non-200 reply raises: an undecodable error body raises the decoding error;
      otherwise 404 raises NO_FOUND, 403 raises EOF in the calls that remap it, and any other
      status raises the decoded HadoopException. */
  function FailureOf(status: int, exception: Option<string>, forbiddenIsEof: bool): (e: ErrorKind)
    ensures exception.None? ==> e == Undecodable
    ensures exception.Some? ==>
      e == (if status == 404 then NoFound
            else if status == 403 && forbiddenIsEof then Eof
            else Remote(exception.value))
  {
    match exception
    case None => Undecodable
    case Some(name) =>
      if status == 404 then NoFound
      else if status == 403 && forbiddenIsEof then Eof
      else Remote(name)
  }

  /** The URL of an operation on a path: the resource address, then the query. */
  function JoinUrl(prefix: string, host: string, port: int, username: string, path: string, op: string): string {
    UrlBase(prefix, host, port, path) + "?" + OpQuery(username, op)
  }

  function UrlBase(prefix: string, host: string, port: int, path: string): string {
    prefix + "://" + host + ":" + FormatInt(port, 10) + "/webhdfs/v1" + path
  }

  /** One `name=value` query parameter. */
  function Param(name: string, val: string): string {
    name + "=" + val
  }

  /** The user name is sent only when one is configured. */
  function OpQuery(username: string, op: string): string {
    if username != "" then Param("user.name", username) + "&" + Param("op", op) else Param("op", op)
  }

  /** urlAddParam: appends one `&name=value` parameter. */
  function UrlAddParam(url: string, name: string, val: string): (r: string)
    ensures |r| > |url| && r[..|url|] == url
    ensures r[|url|..] == "&" + Param(name, val)
  {
    url + "&" + Param(name, val)
  }

  // ---- Reading a URL back: the query string as a list of (name, value) parameters ----

  function IndexOf(s: string, c: char): (i: int)
    ensures -1 <= i < |s|
    ensures i >= 0 ==> s[i] == c && c !in s[..i]
    ensures i < 0 ==> c !in s
    decreases |s|
  {
    if s == [] then -1
    else if s[0] == c then 0
    else var j := IndexOf(s[1..], c); if j < 0 then -1 else j + 1
  }

  /** The first occurrence is the one with no earlier occurrence. */
  lemma IndexOfAt(s: string, c: char, i: nat)
    requires i < |s| && s[i] == c && c !in s[..i]
    ensures IndexOf(s, c) == i
  {
    var j := IndexOf(s, c);
    assert j >= 0 by {
      assert s[i] in s;
    }
  }

  /** The text after the first '?', or "" when there is none. */
  function QueryOf(url: string): string {
    var i := IndexOf(url, '?');
    if i < 0 then "" else url[i + 1..]
  }

  /** `s` cut at every `sep`. */
  function Fields(s: string, sep: char): (fs: seq<string>)
    ensures |fs| >= 1
    decreases |s|
  {
    var i := IndexOf(s, sep);
    if i < 0 then [s] else [s[..i]] + Fields(s[i + 1..], sep)
  }

  /** A parameter cut at its first '='. */
  function ParamOf(field: string): (string, string) {
    var i := IndexOf(field, '=');
    if i < 0 then (field, "") else (field[..i], field[i + 1..])
  }

  /** The query parameters of a URL, in order. */
  function Params(url: string): seq<(string, string)> {
    var fs := Fields(QueryOf(url), '&');
    seq(|fs|, k requires 0 <= k < |fs| => ParamOf(fs[k]))
  }

  lemma {:induction false} FieldsSnoc(q: string, x: string, sep: char)
    requires sep !in x
    ensures Fields(q + [sep] + x, sep) == Fields(q, sep) + [x]
    decreases |q|
  {
    var s := q + [sep] + x;
    var i := IndexOf(q, sep);
    if i < 0 {
      assert s[..|q|] == q;
      IndexOfAt(s, sep, |q|);
      assert s[|q| + 1..] == x;
      FieldsSingle(x, sep);
      assert Fields(s, sep) == [q] + [x];
    } else {
      assert s[..i] == q[..i];
      IndexOfAt(s, sep, i);
      var rest := q[i + 1..];
      assert s[i + 1..] == rest + [sep] + x;
      FieldsSnoc(rest, x, sep);
      var tail := Fields(rest, sep);
      assert Fields(s, sep) == [q[..i]] + (tail + [x]);
      assert Fields(q, sep) == [q[..i]] + tail;
      assert [q[..i]] + (tail + [x]) == ([q[..i]] + tail) + [x];
    }
  }

  /** A field with no separator in it is a single field. */
  lemma FieldsSingle(s: string, sep: char)
    requires sep !in s
    ensures Fields(s, sep) == [s]
  {
  }

  lemma QueryOfAppend(base: string, tail: string)
    requires '?' !in base
    ensures QueryOf(base + "?" + tail) == tail
  {
    var url := base + "?" + tail;
    assert url[..|base|] == base;
    IndexOfAt(url, '?', |base|);
    assert url[|base| + 1..] == tail;
  }

  lemma QueryOfSnoc(url: string, tail: string)
    requires '?' in url
    ensures QueryOf(url + tail) == QueryOf(url) + tail
  {
    var i := IndexOf(url, '?');
    assert (url + tail)[..i] == url[..i];
    IndexOfAt(url + tail, '?', i);
    assert (url + tail)[i + 1..] == url[i + 1..] + tail;
  }

  lemma ParamOfSplit(name: string, val: string)
    requires '=' !in name
    ensures ParamOf(Param(name, val)) == (name, val)
  {
    var f := Param(name, val);
    assert f[..|name|] == name;
    IndexOfAt(f, '=', |name|);
    assert f[|name| + 1..] == val;
  }

  lemma ParamsOfFields(url: string, fields: seq<string>, ps: seq<(string, string)>)
    requires Fields(QueryOf(url), '&') == fields && |fields| == |ps|
    requires forall k :: 0 <= k < |fields| ==> ParamOf(fields[k]) == ps[k]
    ensures Params(url) == ps
  {
  }

  /** Adding a parameter to a URL adds exactly that parameter at the end of its query. */
  lemma AddParamRoundTrip(url: string, name: string, val: string)
    requires '?' in url && '&' !in name && '&' !in val && '=' !in name
    ensures '?' in UrlAddParam(url, name, val)
    ensures Params(UrlAddParam(url, name, val)) == Params(url) + [(name, val)]
  {
    assert UrlAddParam(url, name, val)[..|url|] == url;
    var field := Param(name, val);
    assert '&' !in field;
    var q := QueryOf(url);
    var r := UrlAddParam(url, name, val);
    assert r == url + (['&'] + field);
    QueryOfSnoc(url, ['&'] + field);
    assert QueryOf(r) == q + [ '&'] + field;
    FieldsSnoc(q, field, '&');
    ParamOfSplit(name, val);
    var fs := Fields(q, '&');
    assert Fields(QueryOf(r), '&') == fs + [field];
    var ps := Params(url) + [(name, val)];
    forall k | 0 <= k < |fs| + 1
      ensures ParamOf((fs + [field])[k]) == ps[k]
    {
      if k < |fs| {
        assert (fs + [field])[k] == fs[k];
      }
    }
    ParamsOfFields(r, fs + [field], ps);
  }

  lemma FormatIntNoSeparators(n: int)
    ensures '?' !in FormatInt(n, 10) && '&' !in FormatInt(n, 10)
  {
    var s := FormatUint(if n < 0 then -n else n, 10);
    assert forall k :: 0 <= k < |s| ==> IsDigit(s[k], 10);
  }

  lemma UrlBaseHasNoQuery(prefix: string, host: string, port: int, path: string)
    requires '?' !in prefix && '?' !in host && '?' !in path
    ensures '?' !in UrlBase(prefix, host, port, path)
  {
    FormatIntNoSeparators(port);
  }

  /** The parameter names the client sends contain neither separator. */
  lemma ParamNames()
    ensures '=' !in "user.name" && '&' !in "user.name" && '=' !in "op" && '&' !in "op"
    ensures '=' !in "offset" && '&' !in "offset" && '=' !in "length" && '&' !in "length"
    ensures '=' !in "buffersize" && '&' !in "buffersize"
  {
  }

  lemma OpQueryFields(username: string, op: string)
    requires '&' !in username && '&' !in op
    ensures Fields(OpQuery(username, op), '&') ==
      (if username != "" then [Param("user.name", username)] else []) + [Param("op", op)]
  {
    ParamNames();
    var opField := Param("op", op);
    assert '&' !in opField;
    if username != "" {
      var first := Param("user.name", username);
      assert '&' !in first;
      assert OpQuery(username, op) == first + ['&'] + opField;
      FieldsSnoc(first, opField, '&');
      FieldsSingle(first, '&');
    } else {
      FieldsSingle(opField, '&');
    }
  }

  lemma QueryParams(base: string, username: string, op: string)
    requires '?' !in base && '&' !in username && '&' !in op
    ensures Params(base + "?" + OpQuery(username, op)) ==
      (if username != "" then [("user.name", username)] else []) + [("op", op)]
  {
    var url := base + "?" + OpQuery(username, op);
    QueryOfAppend(base, OpQuery(username, op));
    OpQueryFields(username, op);
    ParamNames();
    ParamOfSplit("op", op);
    if username != "" {
      ParamOfSplit("user.name", username);
      ParamsOfFields(url, [Param("user.name", username), Param("op", op)], [("user.name", username), ("op", op)]);
    } else {
      ParamsOfFields(url, [Param("op", op)], [("op", op)]);
    }
  }

  /** The query of a joined URL is `user.name` (only for a non-empty user) followed by `op`. */
  lemma JoinUrlParams(prefix: string, host: string, port: int, username: string, path: string, op: string)
    requires '?' !in prefix && '?' !in host && '?' !in path
    requires '&' !in username && '&' !in op
    ensures '?' in JoinUrl(prefix, host, port, username, path, op)
    ensures Params(JoinUrl(prefix, host, port, username, path, op)) ==
      (if username != "" then [("user.name", username)] else []) + [("op", op)]
  {
    var base := UrlBase(prefix, host, port, path);
    UrlBaseHasNoQuery(prefix, host, port, path);
    QueryParams(base, username, op);
    assert JoinUrl(prefix, host, port, username, path, op)[|base|] == '?';
  }

  /** The page List yields: the decoded records and remaining count of a 200 reply whose body
      decodes, and no records with nothing remaining after any failure. */
  function PageOf(resp: Response<Option<Batch>>): (page: Batch)
    ensures !(resp.Reply? && resp.status == 200 && resp.body.Some?) ==> page == Batch([], 0)
  {
    if resp.Reply? && resp.status == 200 && resp.body.Some? then resp.body.value else Batch([], 0)
  }

  /** What GetFileStatus returns for a reply: the decoded record of a 200 reply, NO_FOUND for a
      404, and otherwise the reported exception (or the failure to reach or decode the reply). */
  function StatusOf(resp: Response<Option<FileModel>>): Result<FileModel> {
    match resp
    case TransportFailure => Err(Transport)
    case Reply(status, exception, body) =>
      if status != 200 then Err(FailureOf(status, exception, false))
      else if body.None? then Err(Undecodable)
      else Ok(body.value)
  }

  /** What Read returns for a reply: as StatusOf, but a 403 is end-of-file. */
  function ReadOf(resp: Response<seq<byte>>): Result<seq<byte>> {
    match resp
    case TransportFailure => Err(Transport)
    case Reply(status, exception, body) =>
      if status != 200 then Err(FailureOf(status, exception, true)) else Ok(body)
  }

  /** What MakeDir returns for a reply: the decoded boolean, or as ReadOf for a failure. */
  function MakeDirOf(resp: Response<Option<bool>>): Result<bool> {
    match resp
    case TransportFailure => Err(Transport)
    case Reply(status, exception, body) =>
      if status != 200 then Err(FailureOf(status, exception, true))
      else if body.None? then Err(Undecodable)
      else Ok(body.value)
  }

  class HadoopController {
    var isSSL: bool
    var host: string
    var port: int
    var username: string
    var httpPrefix: string
    var inited: bool

    constructor ()
      ensures !isSSL && host == "" && port == 0 && username == "" && httpPrefix == "" && !inited
    {
      isSSL, host, port, username, httpPrefix, inited := false, "", 0, "", "", false;
    }

    method Init(ssl: bool, host': string, port': int, username': string)
      modifies this
      ensures isSSL == ssl && httpPrefix == (if ssl then "https" else "http")
      ensures host == host' && port == port' && username == username' && inited
    {
      isSSL := ssl;
      if ssl {
        httpPrefix := "https";
      } else {
        httpPrefix := "http";
      }
      host := host';
      port := port';
      username := username';
      inited := true;
    }

    /** urlJoin: the URL of operation `op` on `path` for this controller. */
    function UrlJoin(path: string, op: string): (url: string)
      reads this
      ensures url == JoinUrl(httpPrefix, host, port, username, path, op)
    {
      JoinUrl(httpPrefix, host, port, username, path, op)
    }

    /** The URL of a LISTSTATUS_BATCH page: `startAfter` is sent only when non-empty. */
    function ListUrl(path: string, startAfter: string): (url: string)
      reads this
      ensures startAfter == "" ==> url == UrlJoin(path, LISTSTATUS_BATCH)
      ensures startAfter != "" ==> url == UrlAddParam(UrlJoin(path, LISTSTATUS_BATCH), "startAfter", startAfter)
    {
      var url := UrlJoin(path, LISTSTATUS_BATCH);
      if startAfter != "" then UrlAddParam(url, "startAfter", startAfter) else url
    }

    /** The URL of a MKDIRS request: `permission` is sent only when non-empty. */
    function MkdirUrl(pathname: string, permission: string): (url: string)
      reads this
      ensures permission == "" ==> url == UrlJoin(pathname, MKDIRS)
      ensures permission != "" ==> url == UrlAddParam(UrlJoin(pathname, MKDIRS), "permission", permission)
    {
      var url := UrlJoin(pathname, MKDIRS);
      if permission != "" then UrlAddParam(url, "permission", permission) else url
    }

    /** List: one page of the directory listing after `startAfter`. It swallows its own
        failures: after any of them it yields no records and nothing remaining; only a transport
        failure or an undecodable body is reported in `err`. */
    method List(path: string, startAfter: string, resp: Response<Option<Batch>>)
      returns (fileList: seq<FileModel>, remain: int, err: Option<ErrorKind>)
      ensures fileList == PageOf(resp).files && remain == PageOf(resp).remainingEntries
      ensures resp.TransportFailure? ==> err == Some(Transport)
      ensures resp.Reply? && resp.status != 200 ==> err == (if resp.exception.None? then Some(Undecodable) else None)
      ensures resp.Reply? && resp.status == 200 ==> err == (if resp.body.None? then Some(Undecodable) else None)
    {
      var url := ListUrl(path, startAfter);  // `resp` answers a GET of url
      fileList, remain := [], 0;
      match resp {
        case TransportFailure =>
          err := Some(Transport);
        case Reply(status, exception, body) =>
          if status != 200 {
            // the raised error is recovered and dropped; err keeps the decoding outcome
            err := if exception.None? then Some(Undecodable) else None;
          } else if body.None? {
            err := Some(Undecodable);
          } else {
            err := None;
            fileList := body.value.files;
            remain := body.value.remainingEntries;
          }
      }
    }

    method GetFileStatus(filePath: string, resp: Response<Option<FileModel>>)
      returns (res: Result<FileModel>)
      ensures res == StatusOf(resp)
      ensures resp.TransportFailure? ==> res == Err(Transport)
      ensures resp.Reply? && resp.status != 200 ==> res == Err(FailureOf(resp.status, resp.exception, false))
      ensures resp.Reply? && resp.status == 200 ==>
        res == (if resp.body.None? then Err(Undecodable) else Ok(resp.body.value))
      ensures res.Err? ==> res.error != Eof
    {
      var url := UrlJoin(filePath, GETFILESTATUS);  // `resp` answers a GET of url
      match resp {
        case TransportFailure =>
          res := Err(Transport);
        case Reply(status, exception, body) =>
          if status != 200 {
            res := Err(FailureOf(status, exception, false));
          } else if body.None? {
            res := Err(Undecodable);
          } else {
            res := Ok(body.value);
          }
      }
    }

    /** Read: a byte range. A zero length and a non-positive buffer size fall back to 4096; a 403
        reply is end-of-file. */
    method Read(filePath: string, offset: uint64, length: uint32, buffersize: int, resp: Response<seq<byte>>)
      returns (res: Result<seq<byte>>)
      ensures res == ReadOf(resp)
      ensures resp.TransportFailure? ==> res == Err(Transport)
      ensures resp.Reply? && resp.status != 200 ==> res == Err(FailureOf(resp.status, resp.exception, true))
      ensures resp.Reply? && resp.status == 200 ==> res == Ok(resp.body)
    {
      var url := UrlJoin(filePath, READ);
      url := UrlAddParam(url, "offset", FormatInt(WrapInt64(offset), 10));
      var len: int := length;
      var bufsize := buffersize;
      if len <= 0 {
        len := DEFAULT_LENGTH;
      }
      if bufsize <= 0 {
        bufsize := DEFAULT_BUFFERSIZE;
      }
      url := UrlAddParam(url, "length", FormatInt(len, 10));
      url := UrlAddParam(url, "buffersize", FormatInt(bufsize, 10));
      assert url == ReadUrl(UrlJoin(filePath, READ), offset, length, buffersize);
      // `resp` answers a GET of url
      match resp {
        case TransportFailure =>
          res := Err(Transport);
        case Reply(status, exception, body) =>
          if status != 200 {
            res := Err(FailureOf(status, exception, true));
          } else {
            res := Ok(body);
          }
      }
    }

    /** MakeDir: the `permission` parameter is sent only when non-empty; a 403 reply is
        reported as end-of-file, as in Read. */
    method MakeDir(pathname: string, permission: string, resp: Response<Option<bool>>)
      returns (res: Result<bool>)
      ensures res == MakeDirOf(resp)
      ensures resp.TransportFailure? ==> res == Err(Transport)
      ensures resp.Reply? && resp.status != 200 ==> res == Err(FailureOf(resp.status, resp.exception, true))
      ensures resp.Reply? && resp.status == 200 ==>
        res == (if resp.body.None? then Err(Undecodable) else Ok(resp.body.value))
      ensures res.Err? ==> res.error != Access
    {
      var url := UrlJoin(pathname, MKDIRS);
      if permission != "" {
        url := UrlAddParam(url, "permission", permission);
      }
      assert url == MkdirUrl(pathname, permission);
      // `resp` answers a PUT of url
      match resp {
        case TransportFailure =>
          res := Err(Transport);
        case Reply(status, exception, body) =>
          if status != 200 {
            res := Err(FailureOf(status, exception, true));
          } else if body.None? {
            res := Err(Undecodable);
          } else {
            res := Ok(body.value);
          }
      }
    }
  }

  /** The URL of a read request, as Read builds it. */
  function ReadUrl(joined: string, offset: uint64, length: uint32, buffersize: int): string {
    var len := if length == 0 then DEFAULT_LENGTH else length;
    var bufsize := if buffersize <= 0 then DEFAULT_BUFFERSIZE else buffersize;
    UrlAddParam(UrlAddParam(UrlAddParam(joined,
      "offset", FormatInt(WrapInt64(offset), 10)),
      "length", FormatInt(len, 10)),
      "buffersize", FormatInt(bufsize, 10))
  }

  lemma ThreeParams(u0: string, o: string, l: string, b: string)
    requires '?' in u0 && '&' !in o && '&' !in l && '&' !in b
    ensures Params(UrlAddParam(UrlAddParam(UrlAddParam(u0, "offset", o), "length", l), "buffersize", b))
      == Params(u0) + [("offset", o), ("length", l), ("buffersize", b)]
  {
    ParamNames();
    AddParamRoundTrip(u0, "offset", o);
    var u1 := UrlAddParam(u0, "offset", o);
    AddParamRoundTrip(u1, "length", l);
    var u2 := UrlAddParam(u1, "length", l);
    AddParamRoundTrip(u2, "buffersize", b);
    SnocThree(Params(u0), Params(u1), Params(u2), Params(UrlAddParam(u2, "buffersize", b)),
      ("offset", o), ("length", l), ("buffersize", b));
  }

  lemma SnocThree<T>(p0: seq<T>, p1: seq<T>, p2: seq<T>, p3: seq<T>, x: T, y: T, z: T)
    requires p1 == p0 + [x] && p2 == p1 + [y] && p3 == p2 + [z]
    ensures p3 == p0 + [x, y, z]
  {
    assert p0 + [x] + [y] + [z] == p0 + [x, y, z];
  }

  /** Read appends its three parameters, in order, to the query of the joined URL: the offset
      as a signed 64-bit number, and the length and buffer size after their defaults. */
  lemma ReadUrlAppends(u0: string, offset: uint64, length: uint32, buffersize: int)
    requires '?' in u0
    ensures Params(ReadUrl(u0, offset, length, buffersize)) == Params(u0) +
      [("offset", FormatInt(WrapInt64(offset), 10)),
       ("length", FormatInt(if length == 0 then DEFAULT_LENGTH else length, 10)),
       ("buffersize", FormatInt(if buffersize <= 0 then DEFAULT_BUFFERSIZE else buffersize, 10))]
  {
    var len: int := if length == 0 then DEFAULT_LENGTH else length;
    var bufsize: int := if buffersize <= 0 then DEFAULT_BUFFERSIZE else buffersize;
    FormatIntNoSeparators(WrapInt64(offset));
    FormatIntNoSeparators(len);
    FormatIntNoSeparators(bufsize);
    ThreeParams(u0, FormatInt(WrapInt64(offset), 10), FormatInt(len, 10), FormatInt(bufsize, 10));
  }
}
