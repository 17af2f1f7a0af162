/**
 * The two records of backend/models.py: `RoleInfo`, a role as the scanner
 * finds it, and `BackupInfo`, a backup as the listing reports it, with their
 * `str` form and dictionary conversions.
 */
module Models {
  import opened Wrappers
  import Strings

  /** A JSON value, as dictionaries travel to and from the front end. */
  datatype Value =
    | Null
    | Bool(b: bool)
    | Int(i: int)
    | Str(s: string)
    | List(items: seq<Value>)
    | Object(fields: map<string, Value>)

  /** Why `RoleInfo(**data)` raises TypeError. */
  datatype DictError =
    | UnexpectedKeywords(names: set<string>)
    | MissingArguments(names: set<string>)

  const RoleFields: set<string> := {"account", "region", "server", "role", "path"}

  /** Dataclass equality compares the five fields, which is datatype equality here. */
  datatype RoleInfo = RoleInfo(account: string, region: string, server: string, role: string, path: string)
  {
    /** `str(role)`: the four name fields joined by "-". */
    function Display(): string {
      account + "-" + region + "-" + server + "-" + role
    }

    /** `to_dict()`: exactly the five fields, each under its own name. */
    function ToDict(): (d: map<string, string>)
      ensures d.Keys == RoleFields
      ensures d["account"] == account && d["region"] == region && d["server"] == server
      ensures d["role"] == role && d["path"] == path
    {
      map["account" := account, "region" := region, "server" := server, "role" := role, "path" := path]
    }
  }

  /**
   * `RoleInfo.from_dict(data)`, i.e. `RoleInfo(**data)`: any key that is not a
   * field is an unexpected keyword argument, any field without a key a missing one.
   */
  function FromDict(d: map<string, string>): (r: Result<RoleInfo, DictError>)
    ensures r.Ok? <==> d.Keys == RoleFields
    ensures r.Ok? ==> r.value.ToDict() == d
    ensures r.Err? && r.error.UnexpectedKeywords? ==> r.error.names == d.Keys - RoleFields != {}
    ensures r.Err? && r.error.MissingArguments? ==> d.Keys <= RoleFields && r.error.names == RoleFields - d.Keys != {}
  {
    if d.Keys - RoleFields != {} then Err(UnexpectedKeywords(d.Keys - RoleFields))
    else if RoleFields - d.Keys != {} then Err(MissingArguments(RoleFields - d.Keys))
    else Ok(RoleInfo(d["account"], d["region"], d["server"], d["role"], d["path"]))
  }

  /** `from_dict(r.to_dict()) == r`. */
  lemma FromDictToDict(r: RoleInfo)
    ensures FromDict(r.ToDict()) == Ok(r)
  {
    var d := r.ToDict();
    assert d.Keys == RoleFields;
  }

  /** Two roles are equal exactly when all five fields are. */
  lemma RoleEquality(a: RoleInfo, b: RoleInfo)
    ensures a == b <==>
      a.account == b.account && a.region == b.region && a.server == b.server &&
      a.role == b.role && a.path == b.path
  {
  }

  /** When no name field contains "-", the display string splits back into the four names. */
  lemma DisplaySplits(r: RoleInfo)
    requires '-' !in r.account && '-' !in r.region && '-' !in r.server && '-' !in r.role
    ensures Strings.Split(r.Display(), '-') == [r.account, r.region, r.server, r.role]
  {
    var parts := [r.account, r.region, r.server, r.role];
    assert Strings.Join(parts, '-') == r.Display() by {
      assert parts[3..] == [r.role];
      assert parts[2..] == [r.server, r.role];
      assert parts[1..] == [r.region, r.server, r.role];
      assert Strings.Join(parts[2..], '-') == r.server + "-" + r.role;
      assert Strings.Join(parts[1..], '-') == r.region + "-" + r.server + "-" + r.role;
    }
    Strings.SplitJoin(parts, '-');
  }

  datatype BackupInfo = BackupInfo(name: string, path: string, size: nat, created_at: string, role_info: string)
  {
    /** `to_dict()`: exactly the five fields, each under its own name. */
    function ToDict(): (d: map<string, Value>)
      ensures d.Keys == {"name", "path", "size", "created_at", "role_info"}
      ensures d["name"] == Str(name) && d["path"] == Str(path) && d["size"] == Int(size)
      ensures d["created_at"] == Str(created_at) && d["role_info"] == Str(role_info)
    {
      map["name" := Str(name), "path" := Str(path), "size" := Int(size),
          "created_at" := Str(created_at), "role_info" := Str(role_info)]
    }
  }

  /** `to_dict` loses nothing: equal dictionaries come from equal backups. */
  lemma BackupToDictInjective(a: BackupInfo, b: BackupInfo)
    requires a.ToDict() == b.ToDict()
    ensures a == b
  {
    assert a.ToDict()["size"] == b.ToDict()["size"];
    assert a.ToDict()["name"] == b.ToDict()["name"];
    assert a.ToDict()["path"] == b.ToDict()["path"];
    assert a.ToDict()["created_at"] == b.ToDict()["created_at"];
    assert a.ToDict()["role_info"] == b.ToDict()["role_info"];
  }
}
