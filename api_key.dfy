/** The API-key check of the quote server: the environment variable
    `YFI_API_KEY` holds a `:`-separated list of keys, empty fields are
    dropped, and a request is let through only when its `token` is one of
    the remaining keys. */
module ApiKey {

  const ApiKeyVariable: string := "YFI_API_KEY"
  const Separator: char := ':'
  const Unauthorized: nat := 401
  const InvalidKeyDetail: string := "Invalid API Key"

  /** The outcome of `get_api_key`: it returns, raises the 401
      `HTTPException`, or fails with `KeyError` when the variable is not set. */
  datatype Access =
    | Granted
    | Denied(status: nat, detail: string)
    | MissingVariable

  /** No field contains the separator. */
  predicate SeparatorFree(fields: seq<string>, sep: char) {
    forall i :: 0 <= i < |fields| ==> sep !in fields[i]
  }

  /** The fields written one after the other with `sep` between them:
      Python's `sep.join(fields)`. */
  function Join(fields: seq<string>, sep: char): (s: string)
    requires |fields| >= 1
    decreases |fields|
  {
    if |fields| == 1 then fields[0] else fields[0] + [sep] + Join(fields[1..], sep)
  }

  /** Python's `s.split(sep)`: the maximal separator-free pieces between
      separators, empty pieces included, so `"".split(":")` is `[""]`. */
  function Split(s: string, sep: char): (fields: seq<string>)
    ensures |fields| >= 1
    ensures SeparatorFree(fields, sep)
    ensures Join(fields, sep) == s
    decreases |s|
  {
    if s == [] then [[]]
    else
      var rest := Split(s[1..], sep);
      if s[0] == sep then
        assert Join([[]] + rest, sep) == [sep] + Join(rest, sep) by {
          assert ([[]] + rest)[1..] == rest;
        }
        assert s == [s[0]] + s[1..];
        [[]] + rest
      else
        var fields := [[s[0]] + rest[0]] + rest[1..];
        assert Join(fields, sep) == s by {
          assert fields[1..] == rest[1..];
          assert s == [s[0]] + s[1..];
        }
        fields
  }

  /** A separator-free list of fields is determined by its join. */
  lemma {:induction false} JoinInjective(fs: seq<string>, gs: seq<string>, sep: char)
    requires |fs| >= 1 && |gs| >= 1
    requires SeparatorFree(fs, sep) && SeparatorFree(gs, sep)
    requires Join(fs, sep) == Join(gs, sep)
    ensures fs == gs
    decreases |fs|
  {
    var s := Join(fs, sep);
    if |fs| == 1 && |gs| == 1 {
    } else if |fs| == 1 {
      assert false;
    } else if |gs| == 1 {
      assert false;
    } else {
      JoinHead(fs, sep);
      JoinHead(gs, sep);
      if |fs[0]| < |gs[0]| {
        assert false;
      } else if |gs[0]| < |fs[0]| {
        assert false;
      }
      var n := |fs[0]|;
      assert fs[0] == s[..n] == gs[0];
      assert Join(fs[1..], sep) == s[n + 1..] == Join(gs[1..], sep);
      JoinInjective(fs[1..], gs[1..], sep);
      assert fs == [fs[0]] + fs[1..] && gs == [gs[0]] + gs[1..];
    }
  }

  /** A join of two or more fields is its first field, then the separator. */
  lemma JoinHead(fs: seq<string>, sep: char)
    requires |fs| >= 2
    ensures |Join(fs, sep)| > |fs[0]|
    ensures Join(fs, sep)[..|fs[0]|] == fs[0] && Join(fs, sep)[|fs[0]|] == sep
    ensures Join(fs, sep)[|fs[0]| + 1..] == Join(fs[1..], sep)
  {
  }

  /** Splitting a join of separator-free fields gives the fields back. */
  lemma SplitOfJoin(fs: seq<string>, sep: char)
    requires |fs| >= 1 && SeparatorFree(fs, sep)
    ensures Split(Join(fs, sep), sep) == fs
  {
    JoinInjective(Split(Join(fs, sep), sep), fs, sep);
  }

  /** The keys the server accepts for the configured `value`: the set of the
      non-empty fields of `value` split at `:`. */
  function KeySet(value: string): (keys: set<string>)
    ensures forall k :: k in keys ==> |k| > 0 && Separator !in k
  {
    set i | 0 <= i < |Split(value, Separator)| && |Split(value, Separator)[i]| > 0 :: Split(value, Separator)[i]
  }

  /** `t` is a non-empty field of `value` read as a `:`-separated list. */
  ghost predicate IsKeyField(value: string, t: string) {
    |t| > 0 && exists fs :: |fs| >= 1 && SeparatorFree(fs, Separator) && Join(fs, Separator) == value && t in fs
  }

  /** The keys are exactly the non-empty fields. */
  lemma KeySetIsFields(value: string, t: string)
    ensures t in KeySet(value) <==> IsKeyField(value, t)
  {
    var fields := Split(value, Separator);
    if t in KeySet(value) {
      var i :| 0 <= i < |fields| && fields[i] == t;
      assert t in fields;
    }
    if IsKeyField(value, t) {
      var fs :| |fs| >= 1 && SeparatorFree(fs, Separator) && Join(fs, Separator) == value && t in fs;
      SplitOfJoin(fs, Separator);
      var i :| 0 <= i < |fs| && fs[i] == t;
      assert fields[i] == t;
    }
  }

  /** `get_api_key(token)` with `environ` for `os.environ`. */
  function CheckApiKey(token: string, environ: map<string, string>): (r: Access)
    ensures r.Denied? ==> r == Denied(Unauthorized, InvalidKeyDetail)
    ensures r == MissingVariable <==> ApiKeyVariable !in environ
    ensures token == "" ==> r != Granted
  {
    if ApiKeyVariable !in environ then MissingVariable
    else if token !in KeySet(environ[ApiKeyVariable]) then Denied(Unauthorized, InvalidKeyDetail)
    else Granted
  }

  /** A token is let through exactly when it is a non-empty field of the
      configured value. */
  lemma GrantedIffKeyField(token: string, environ: map<string, string>)
    requires ApiKeyVariable in environ
    ensures CheckApiKey(token, environ) == Granted <==> IsKeyField(environ[ApiKeyVariable], token)
    ensures CheckApiKey(token, environ) != Granted ==> CheckApiKey(token, environ) == Denied(Unauthorized, InvalidKeyDetail)
  {
    KeySetIsFields(environ[ApiKeyVariable], token);
  }
}
