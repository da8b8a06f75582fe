/** The user table of server/src/config.c: the line parser, what it loads, and the login decision. */
module Config {
  import opened Bytes
  import Rfc1321
  import Md5

  const MAX_USERS: nat := 32
  const FIELD: nat := 63      // characters kept in a 64-byte name or section buffer

  datatype Permission = PermNone | PermRO | PermRW

  datatype User = User(username: string, password: string, perm: Permission)

  // --- Strings ---

  predicate IsBlank(c: char) { c == ' ' || c == '\t' || c == '\r' || c == '\n' }

  /** Nothing but spaces, tabs, carriage returns and line feeds. */
  predicate Blank(s: string) { forall i | 0 <= i < |s| :: s[i] in " \t\r\n" }

  /** None of them at either end. */
  predicate Tight(s: string) { s != "" ==> s[0] !in " \t\r\n" && s[|s| - 1] !in " \t\r\n" }

  lemma BlankIs(c: char)
    ensures IsBlank(c) <==> c in " \t\r\n"
  {
  }

  function StripFront(s: string): (r: string)
    ensures |r| <= |s|
  {
    if s != "" && IsBlank(s[0]) then StripFront(s[1..]) else s
  }

  function StripBack(s: string): (r: string)
    ensures |r| <= |s|
  {
    if s != "" && IsBlank(s[|s| - 1]) then StripBack(s[..|s| - 1]) else s
  }

  function Trimmed(s: string): string {
    StripBack(StripFront(s))
  }

  /** strncpy: the longest prefix of at most `n` characters. */
  function Take(s: string, n: nat): (r: string)
    ensures r <= s && |r| == if |s| <= n then |s| else n
  {
    if |s| <= n then s else s[..n]
  }

  /** strchr: the first position of `c`. */
  function Find(s: string, c: char): (r: Option<nat>)
    ensures r.Some? ==> r.value < |s| && s[r.value] == c && c !in s[..r.value]
    ensures r.None? ==> c !in s
  {
    if s == "" then None
    else if s[0] == c then Some(0)
    else match Find(s[1..], c)
      case None => None
      case Some(i) => assert s[..i + 1] == [s[0]] + s[1..][..i]; Some(i + 1)
  }

  /** `trim`: one loop from the front, one from the back. */
  method Trim(str: string) returns (r: string)
    ensures r == Trimmed(str)
  {
    r := str;
    while r != "" && IsBlank(r[0])
      invariant StripFront(r) == StripFront(str)
      decreases |r|
    {
      r := r[1..];
    }
    if r == "" { return; }
    ghost var front := r;
    var end := |r| - 1;
    assert r[..end + 1] == r;
    while end > 0 && IsBlank(r[end])
      invariant 0 <= end < |r| && r == front
      invariant StripBack(r[..end + 1]) == StripBack(front)
    {
      assert r[..end + 1][..end] == r[..end];
      end := end - 1;
    }
    r := r[..end + 1];
  }

  lemma {:induction false} StripFrontSplits(s: string) returns (a: string)
    ensures Blank(a) && s == a + StripFront(s)
    ensures StripFront(s) != "" ==> !IsBlank(StripFront(s)[0])
    decreases |s|
  {
    forall c ensures IsBlank(c) <==> c in " \t\r\n" { BlankIs(c); }
    if s != "" && IsBlank(s[0]) {
      var a' := StripFrontSplits(s[1..]);
      a := [s[0]] + a';
    } else {
      a := "";
    }
  }

  lemma {:induction false} StripBackSplits(s: string) returns (b: string)
    ensures Blank(b) && s == StripBack(s) + b
    ensures StripBack(s) != "" ==> !IsBlank(StripBack(s)[|StripBack(s)| - 1])
    decreases |s|
  {
    forall c ensures IsBlank(c) <==> c in " \t\r\n" { BlankIs(c); }
    if s != "" && IsBlank(s[|s| - 1]) {
      var b' := StripBackSplits(s[..|s| - 1]);
      b := b' + [s[|s| - 1]];
    } else {
      b := "";
    }
  }

  lemma {:induction false} StripFrontOf(a: string, x: string)
    requires Blank(a) && (x != "" ==> !IsBlank(x[0]))
    ensures StripFront(a + x) == x
    decreases |a|
  {
    if a == "" {
      assert a + x == x;
    } else {
      BlankIs(a[0]);
      assert (a + x)[1..] == a[1..] + x;
      StripFrontOf(a[1..], x);
    }
  }

  lemma {:induction false} StripBackOf(x: string, b: string)
    requires Blank(b) && (x != "" ==> !IsBlank(x[|x| - 1]))
    ensures StripBack(x + b) == x
    decreases |b|
  {
    if b == "" {
      assert x + b == x;
    } else {
      BlankIs(b[|b| - 1]);
      assert (x + b)[..|x + b| - 1] == x + b[..|b| - 1];
      StripBackOf(x, b[..|b| - 1]);
    }
  }

  /** `r` is `s` without the blanks around it. */
  ghost predicate TrimsTo(s: string, r: string) {
    Tight(r) && exists a, b :: Blank(a) && Blank(b) && s == a + r + b
  }

  /** Trimming removes exactly the blanks around the text. */
  lemma TrimmedExact(s: string, r: string)
    ensures r == Trimmed(s) <==> TrimsTo(s, r)
  {
    forall c ensures IsBlank(c) <==> c in " \t\r\n" { BlankIs(c); }
    hide IsBlank;
    var a := StripFrontSplits(s);
    var b := StripBackSplits(StripFront(s));
    var t := Trimmed(s);
    hide StripFront, StripBack;
    assert s == a + t + b;
    assert t != "" ==> t[0] == StripFront(s)[0];
    if TrimsTo(s, r) {
      var c, d :| Blank(c) && Blank(d) && s == c + r + d;
      if r == "" {
        assert s == (c + d) + "";
        StripFrontOf(c + d, "");
      } else {
        assert s == c + (r + d);
        StripFrontOf(c, r + d);
        StripBackOf(r, d);
      }
    }
  }

  // --- One `name:password:perm` value ---

  function ParsePermission(s: string): Permission {
    if s == "rw" || s == "RW" then PermRW else if s == "ro" || s == "RO" then PermRO else PermNone
  }

  /** The bytes of a C string. */
  function ToBytes(s: string): (b: seq<byte>)
    ensures |b| == |s|
  {
    seq(|s|, i requires 0 <= i < |s| => ToByte(s[i] as int % 256))
  }

  /** Every character below 256 is a byte. */
  lemma TextBytes(s: string, i: nat)
    requires i < |s| && s[i] as int < 256
    ensures ByteValue(ToBytes(s)[i]) == s[i] as int
  {
    hide ByteValue, ToByte;
  }

  /** What the permission field says. */
  lemma PermissionWords(s: string)
    ensures ParsePermission(s) == PermRW <==> s == "rw" || s == "RW"
    ensures ParsePermission(s) == PermRO <==> s == "ro" || s == "RO"
  {
  }

  function MakeUser(name: string, password: string, perm: string): User {
    User(Take(name, FIELD), Md5.Md5Hex(ToBytes(password)), ParsePermission(perm))
  }

  /** Each field of the user, from the text. */
  lemma MadeUser(name: string, password: string, perm: string)
    ensures var u := MakeUser(name, password, perm);
      && u.username == (if |name| <= 63 then name else name[..63])
      && u.password == Md5.Md5Hex(ToBytes(password))
      && (u.perm == PermRW <==> perm == "rw" || perm == "RW")
      && (u.perm == PermRO <==> perm == "ro" || perm == "RO")
  {
    PermissionWords(perm);
    hide ParsePermission, ToBytes;
  }

  function ParseUser(value: string): Option<User> {
    match Find(value, ':')
    case None => None
    case Some(i) =>
      match Find(value[i + 1..], ':')
      case None => None
      case Some(j) => Some(MakeUser(value[..i], value[i + 1..][..j], value[i + 1..][j + 1..]))
  }

  /** `value` is the three fields with a colon after each of the first two, and none inside those. */
  ghost predicate Fields(value: string, name: string, password: string, perm: string) {
    value == name + ":" + password + ":" + perm && ':' !in name && ':' !in password
  }

  lemma FirstColon(value: string, name: string, rest: string)
    requires value == name + ":" + rest && ':' !in name
    ensures Find(value, ':') == Some(|name|)
    ensures value[..|name|] == name && value[|name| + 1..] == rest
  {
    FirstOf(value, name, ':', rest);
  }

  lemma FirstOf(value: string, name: string, c: char, rest: string)
    requires value == name + [c] + rest && c !in name
    ensures Find(value, c) == Some(|name|)
    ensures value[..|name|] == name && value[|name| + 1..] == rest
  {
    var r := Find(value, c);
    assert value[|name|] == c;
    assert forall k | 0 <= k < |name| :: value[k] == name[k];
    assert forall k | 0 <= k < r.value :: value[..r.value][k] == value[k];
  }

  lemma ParseOfFields(value: string, name: string, password: string, perm: string)
    requires Fields(value, name, password, perm)
    ensures ParseUser(value) == Some(MakeUser(name, password, perm))
  {
    assert value == name + ":" + (password + ":" + perm);
    hide MakeUser, Find;
    FirstColon(value, name, password + ":" + perm);
    FirstColon(password + ":" + perm, password, perm);
  }

  lemma FieldsOfParse(value: string) returns (name: string, password: string, perm: string)
    requires ParseUser(value).Some?
    ensures Fields(value, name, password, perm) && ParseUser(value) == Some(MakeUser(name, password, perm))
  {
    hide MakeUser, Find;
    var i := Find(value, ':').value;
    var rest := value[i + 1..];
    var j := Find(rest, ':').value;
    name, password, perm := value[..i], rest[..j], rest[j + 1..];
    assert rest == password + ":" + perm by { Parted(rest, j); }
    assert value == name + ":" + rest by { Parted(value, i); }
  }

  lemma Parted(s: string, i: nat)
    requires i < |s|
    ensures s == s[..i] + [s[i]] + s[i + 1..]
  {
  }

  /** A value parses exactly when it has the three fields, and then into the user they describe. */
  lemma ParseUserExact(value: string, u: User)
    ensures ParseUser(value) == Some(u)
      <==> exists name, password, perm :: Fields(value, name, password, perm) && u == MakeUser(name, password, perm)
  {
    hide MakeUser, ParseUser, Fields;
    if ParseUser(value) == Some(u) {
      var name, password, perm := FieldsOfParse(value);
    }
    forall name, password, perm | Fields(value, name, password, perm)
      ensures ParseUser(value) == Some(MakeUser(name, password, perm))
    {
      ParseOfFields(value, name, password, perm);
    }
  }

  // --- What the file says, line by line ---

  /** A section header that closes; the name is what fits the buffer. */
  function Header(t: string): Option<string> {
    if t == "" || t[0] != '[' then None
    else match Find(t, ']')
      case None => None
      case Some(e) => Some(Take(t[1..e], FIELD))
  }

  /** Neither empty, nor a comment, nor the start of a header. */
  predicate IsEntry(t: string) {
    t != "" && t[0] != '#' && t[0] != ';' && t[0] != '['
  }

  /** The part of an entry after its first equals sign, or all of it. */
  function Value(t: string): string {
    match Find(t, '=')
    case None => t
    case Some(e) => Trimmed(t[e + 1..])
  }

  /** A header is an opening bracket, the name without a closing one, and a closing bracket; 63 characters count. */
  lemma HeaderExact(t: string, name: string)
    ensures Header(t) == Some(name) <==> exists inside, rest ::
      t == "[" + inside + "]" + rest && ']' !in inside && name == if |inside| <= 63 then inside else inside[..63]
  {
    hide Find;
    if Header(t) == Some(name) {
      var e := Find(t, ']').value;
      assert e > 0 && t[0] == '[';
      Parted(t, e);
      assert t[..e] == "[" + t[1..e];
      assert ']' !in t[1..e];
      assert t == "[" + t[1..e] + "]" + t[e + 1..];
    }
    forall inside, rest | t == "[" + inside + "]" + rest && ']' !in inside
      ensures Header(t) == Some(if |inside| <= 63 then inside else inside[..63])
    {
      FirstOf(t, "[" + inside, ']', rest);
      assert t[1..1 + |inside|] == inside;
    }
  }

  /** The value of an entry: all of it without an equals sign, else what follows the first one, trimmed. */
  lemma ValueExact(t: string, v: string)
    ensures v == Value(t) <==>
      || ('=' !in t && v == t)
      || exists key, rest :: t == key + "=" + rest && '=' !in key && TrimsTo(rest, v)
  {
    hide Find, Trimmed, TrimsTo;
    if '=' in t {
      var e := Find(t, '=').value;
      Parted(t, e);
      assert t == t[..e] + "=" + t[e + 1..];
      TrimmedExact(t[e + 1..], v);
    }
    forall key, rest | t == key + "=" + rest && '=' !in key
      ensures '=' in t && Value(t) == Trimmed(rest) && (v == Trimmed(rest) <==> TrimsTo(rest, v))
    {
      FirstOf(t, key, '=', rest);
      TrimmedExact(rest, v);
    }
  }

  /** The section in force before line `i`: the nearest header above it. */
  function SectionBefore(lines: seq<string>, i: nat): string
    requires i <= |lines|
  {
    if i == 0 then "" else
      match Header(Trimmed(lines[i - 1]))
      case Some(name) => name
      case None => SectionBefore(lines, i - 1)
  }

  /** The user that line `i` describes, if it does. */
  function UserAt(lines: seq<string>, i: nat): Option<User>
    requires i < |lines|
  {
    var t := Trimmed(lines[i]);
    if IsEntry(t) && SectionBefore(lines, i) == "users" then ParseUser(Value(t)) else None
  }

  /** All users described by the first `i` lines, in order. */
  function UsersUpTo(lines: seq<string>, i: nat): seq<User>
    requires i <= |lines|
  {
    if i == 0 then [] else
      UsersUpTo(lines, i - 1) + (match UserAt(lines, i - 1) case None => [] case Some(u) => [u])
  }

  function FirstUsers(us: seq<User>): seq<User> {
    if |us| <= MAX_USERS then us else us[..MAX_USERS]
  }

  lemma AllFit(us: seq<User>)
    requires |us| <= MAX_USERS
    ensures FirstUsers(us + []) == us
  {
  }

  lemma KeptNone()
    ensures FirstUsers([]) == []
  {
  }

  /** Cutting the table off after every line is cutting it off at the end. */
  lemma KeptNext(us: seq<User>, vs: seq<User>)
    ensures FirstUsers(FirstUsers(us) + vs) == FirstUsers(us + vs)
  {
  }

  lemma TrimmedShorter(s: string)
    ensures |Trimmed(s)| <= |s|
  {
  }

  // --- Loading ---

  class ServerConfig {
    var users: array<User>
    var userCount: nat

    ghost predicate Valid()
      reads this
    {
      users.Length == MAX_USERS && userCount <= MAX_USERS
    }

    ghost function Table(): seq<User>
      requires Valid()
      reads this, users
    {
      users[..userCount]
    }

    constructor ()
      ensures Valid() && userCount == 0 && fresh(users)
    {
      users := new User[MAX_USERS](_ => User("", "", PermNone));
      userCount := 0;
    }

    /** The body of the `[users]` branch: a line with one colon overwrites the name of the next free slot and stops. */
    method AddUser(value: string)
      requires Valid() && |value| < 512
      modifies this`userCount, users
      ensures Valid()
      ensures Table() == FirstUsers(old(Table()) + (match ParseUser(value) case None => [] case Some(u) => [u]))
    {
      hide Md5.Md5Hex, Take, ParsePermission, Find;
      if userCount < MAX_USERS {
        var colon1 := Find(value, ':');
        if colon1.Some? {
          users[userCount] := users[userCount].(username := Take(value[..colon1.value], FIELD));
          var rest := value[colon1.value + 1..];
          var colon2 := Find(rest, ':');
          if colon2.Some? {
            var password := rest[..colon2.value];
            var hex := Md5HexOfString(password);
            users[userCount] := users[userCount].(password := hex);
            users[userCount] := users[userCount].(perm := ParsePermission(rest[colon2.value + 1..]));
            userCount := userCount + 1;
          }
        }
      }
    }

    /** The body of the loop of `config_load`, on line `n`. */
    method LoadLine(lines: seq<string>, n: nat, section: string) returns (next: string)
      requires Valid() && n < |lines| && |lines[n]| < 512 && section == SectionBefore(lines, n)
      modifies this`userCount, users
      ensures Valid() && next == SectionBefore(lines, n + 1)
      ensures Table() == FirstUsers(old(Table()) + (match UserAt(lines, n) case None => [] case Some(u) => [u]))
    {
      hide ParseUser, FirstUsers, Trimmed, Take, Find;
      next := section;
      AllFit(Table());
      var trimmed := Trim(lines[n]);
      TrimmedShorter(lines[n]);
      if trimmed == "" || trimmed[0] == '#' || trimmed[0] == ';' {
      } else if trimmed[0] == '[' {
        var end := Find(trimmed, ']');
        if end.Some? {
          next := Take(trimmed[1..end.value], FIELD);
        }
      } else {
        var eq := Find(trimmed, '=');
        var value := trimmed;
        if eq.Some? {
          value := Trim(trimmed[eq.value + 1..]);
          TrimmedShorter(trimmed[eq.value + 1..]);
        }
        if section == "users" {
          AddUser(value);
        }
      }
    }

    /** `config_load`, as far as the user table goes, on the lines that fgets delivers. */
    method Load(lines: seq<string>)
      requires Valid() && userCount == 0
      requires forall i | 0 <= i < |lines| :: |lines[i]| < 512
      modifies this`userCount, users
      ensures Valid()
      ensures Table() == Kept(lines)
    {
      hide UserAt, FirstUsers, Trimmed, Header;
      var section := "";
      var n := 0;
      KeptNone();
      while n < |lines|
        invariant 0 <= n <= |lines|
        invariant Valid()
        invariant section == SectionBefore(lines, n)
        invariant Table() == FirstUsers(UsersUpTo(lines, n))
      {
        KeptNext(UsersUpTo(lines, n), match UserAt(lines, n) case None => [] case Some(u) => [u]);
        section := LoadLine(lines, n, section);
        n := n + 1;
      }
    }

    /**
     `config_verify_user`: scans the table from the front. It is found exactly when some entry has both the name and the
     hash, and the permission is that of the first such entry.
     */
    method VerifyUser(username: string, passwordMd5: string) returns (found: bool, perm: Permission)
      requires Valid()
      ensures found <==>
        exists k: nat :: k < userCount && users[k].username == username && users[k].password == passwordMd5
      ensures found ==> exists k: nat ::
        && k < userCount && users[k].username == username && users[k].password == passwordMd5 && users[k].perm == perm
        && forall j | 0 <= j < k :: !(users[j].username == username && users[j].password == passwordMd5)
      ensures (if found then Some(perm) else None) == FirstMatch(Table(), username, passwordMd5)
    {
      perm := PermNone;
      var i := 0;
      while i < userCount
        invariant 0 <= i <= userCount
        invariant forall j | 0 <= j < i :: !(users[j].username == username && users[j].password == passwordMd5)
        invariant FirstMatch(Table(), username, passwordMd5) == FirstMatch(users[i..userCount], username, passwordMd5)
      {
        assert users[i..userCount][1..] == users[i + 1..userCount];
        if users[i].username == username && users[i].password == passwordMd5 {
          return true, users[i].perm;
        }
        i := i + 1;
      }
      assert users[i..userCount] == [];
      return false, perm;
    }
  }

  method Md5HexOfString(s: string) returns (hex: string)
    requires |s| < 512
    ensures hex == Md5.Md5Hex(ToBytes(s))
  {
    hex := Md5.Md5HexString(ToBytes(s));
  }

  // --- The login decision ---

  function FirstMatch(us: seq<User>, username: string, passwordMd5: string): Option<Permission> {
    if us == [] then None
    else if us[0].username == username && us[0].password == passwordMd5 then Some(us[0].perm)
    else FirstMatch(us[1..], username, passwordMd5)
  }

  /** Entry `k` is the first with both this name and this hash. */
  ghost predicate FirstFit(us: seq<User>, k: nat, username: string, passwordMd5: string) {
    && k < |us| && us[k].username == username && us[k].password == passwordMd5
    && forall j | 0 <= j < k :: !(us[j].username == username && us[j].password == passwordMd5)
  }

  lemma {:induction false} FirstMatchAt(us: seq<User>, username: string, passwordMd5: string, p: Permission)
    ensures FirstMatch(us, username, passwordMd5) == Some(p) <==>
      exists k: nat ::
        && k < |us| && us[k].username == username && us[k].password == passwordMd5 && us[k].perm == p
        && forall j | 0 <= j < k :: !(us[j].username == username && us[j].password == passwordMd5)
    ensures FirstMatch(us, username, passwordMd5).None? <==>
      forall k | 0 <= k < |us| :: !(us[k].username == username && us[k].password == passwordMd5)
    decreases |us|
  {
    if us != [] && us[0].username == username && us[0].password == passwordMd5 {
      assert FirstFit(us, 0, username, passwordMd5);
    } else if us != [] {
      FirstMatchAt(us[1..], username, passwordMd5, p);
      forall k: nat | FirstFit(us, k, username, passwordMd5)
        ensures FirstFit(us[1..], k - 1, username, passwordMd5)
      {
        assert forall j | 0 <= j < k - 1 :: us[1..][j] == us[j + 1];
      }
      forall k: nat | FirstFit(us[1..], k, username, passwordMd5)
        ensures FirstFit(us, k + 1, username, passwordMd5)
      {
        assert forall j | 0 < j < k + 1 :: us[j] == us[1..][j - 1];
      }
    }
  }

  /** Line `i` describes a user that is kept and that has both this name and this hash. */
  ghost predicate Admits(lines: seq<string>, i: nat, username: string, passwordMd5: string) {
    && i < |lines|
    && UserAt(lines, i).Some?
    && |UsersUpTo(lines, i)| < MAX_USERS
    && UserAt(lines, i).value.username == username && UserAt(lines, i).value.password == passwordMd5
  }

  /** The k-th loaded user comes from a line of its own, and every kept line gives one. */
  lemma {:induction false} UserOfLine(lines: seq<string>, n: nat, i: nat)
    requires i < n <= |lines| && UserAt(lines, i).Some?
    ensures |UsersUpTo(lines, i)| < |UsersUpTo(lines, n)|
    ensures UsersUpTo(lines, n)[|UsersUpTo(lines, i)|] == UserAt(lines, i).value
    decreases n
  {
    hide UserAt;
    if i + 1 < n {
      UserOfLine(lines, n - 1, i);
    }
  }

  lemma {:induction false} LineOfUser(lines: seq<string>, n: nat, k: nat) returns (i: nat)
    requires n <= |lines| && k < |UsersUpTo(lines, n)|
    ensures i < n && UserAt(lines, i).Some? && |UsersUpTo(lines, i)| == k
    decreases n
  {
    hide UserAt;
    if k < |UsersUpTo(lines, n - 1)| {
      i := LineOfUser(lines, n - 1, k);
    } else {
      i := n - 1;
    }
  }

  ghost predicate FirstAdmitted(lines: seq<string>, i: nat, username: string, passwordMd5: string) {
    && Admits(lines, i, username, passwordMd5)
    && forall j: nat | j < i :: !Admits(lines, j, username, passwordMd5)
  }

  ghost function Kept(lines: seq<string>): seq<User> {
    FirstUsers(UsersUpTo(lines, |lines|))
  }

  lemma FitOfLine(lines: seq<string>, i: nat, username: string, passwordMd5: string)
    requires FirstAdmitted(lines, i, username, passwordMd5)
    ensures var k := |UsersUpTo(lines, i)|;
      FirstFit(Kept(lines), k, username, passwordMd5) && Kept(lines)[k] == UserAt(lines, i).value
  {
    hide UserAt;
    UserOfLine(lines, |lines|, i);
    var k := |UsersUpTo(lines, i)|;
    forall j | 0 <= j < k
      ensures !(Kept(lines)[j].username == username && Kept(lines)[j].password == passwordMd5)
    {
      var l := LineOfUser(lines, i, j);
      UserOfLine(lines, |lines|, l);
      assert !Admits(lines, l, username, passwordMd5);
    }
  }

  lemma LineOfFit(lines: seq<string>, k: nat, username: string, passwordMd5: string) returns (i: nat)
    requires FirstFit(Kept(lines), k, username, passwordMd5)
    ensures FirstAdmitted(lines, i, username, passwordMd5) && Kept(lines)[k] == UserAt(lines, i).value
  {
    hide UserAt;
    i := LineOfUser(lines, |lines|, k);
    UserOfLine(lines, |lines|, i);
    forall j: nat | j < i && Admits(lines, j, username, passwordMd5) ensures false {
      UserOfLine(lines, |lines|, j);
      UserOfLine(lines, i, j);
    }
  }

  /** The decision by lines: the first line whose user has this name and this hash. */
  lemma DecidedByLine(lines: seq<string>, username: string, passwordMd5: string, p: Permission)
    ensures FirstMatch(Kept(lines), username, passwordMd5) == Some(p)
      <==> exists i: nat :: FirstAdmitted(lines, i, username, passwordMd5) && UserAt(lines, i).value.perm == p
  {
    hide UserAt, FirstFit, FirstAdmitted, FirstMatch, Kept;
    FirstFitDecides(Kept(lines), username, passwordMd5, p);
    AdmittedInside(lines);
    FitInside(Kept(lines));
    forall k: nat | FirstFit(Kept(lines), k, username, passwordMd5) && Kept(lines)[k].perm == p
      ensures exists i: nat :: FirstAdmitted(lines, i, username, passwordMd5) && UserAt(lines, i).value.perm == p
    {
      var i := LineOfFit(lines, k, username, passwordMd5);
    }
    forall i: nat | FirstAdmitted(lines, i, username, passwordMd5) && UserAt(lines, i).value.perm == p
      ensures exists k: nat :: FirstFit(Kept(lines), k, username, passwordMd5) && Kept(lines)[k].perm == p
    {
      FitOfLine(lines, i, username, passwordMd5);
    }
  }

  lemma FirstFitDecides(us: seq<User>, username: string, passwordMd5: string, p: Permission)
    ensures FirstMatch(us, username, passwordMd5) == Some(p)
      <==> exists k: nat :: FirstFit(us, k, username, passwordMd5) && us[k].perm == p
  {
    FirstMatchAt(us, username, passwordMd5, p);
    hide FirstMatch;
    forall k: nat | FirstFit(us, k, username, passwordMd5) && us[k].perm == p
      ensures FirstMatch(us, username, passwordMd5) == Some(p)
    {
      assert us[k].username == username && us[k].password == passwordMd5;
    }
    if FirstMatch(us, username, passwordMd5) == Some(p) {
      var k: nat :|
        && k < |us| && us[k].username == username && us[k].password == passwordMd5 && us[k].perm == p
        && forall j | 0 <= j < k :: !(us[j].username == username && us[j].password == passwordMd5);
      assert FirstFit(us, k, username, passwordMd5);
    }
  }

  lemma AdmittedInside(lines: seq<string>)
    ensures forall i: nat, u, h :: FirstAdmitted(lines, i, u, h) ==> i < |lines| && UserAt(lines, i).Some?
  {
  }

  lemma FitInside(us: seq<User>)
    ensures forall k: nat, u, h :: FirstFit(us, k, u, h) ==> k < |us|
  {
  }

  // --- The decision read off the text ---

  /** Line `i`, trimmed, is an entry of `[users]` with these three fields, and the table has room. */
  ghost predicate UserLine(lines: seq<string>, i: nat, name: string, password: string, perm: string) {
    && i < |lines|
    && Trimmed(lines[i]) != "" && Trimmed(lines[i])[0] !in "#;[" && SectionBefore(lines, i) == "users"
    && Fields(Value(Trimmed(lines[i])), name, password, perm)
    && |UsersUpTo(lines, i)| < 32
  }

  /** The name as the table holds it, and the hash of the password, are those of the login. */
  ghost predicate Fit(name: string, password: string, username: string, passwordMd5: string) {
    username == (if |name| <= 63 then name else name[..63]) && passwordMd5 == Md5.Md5Hex(ToBytes(password))
  }

  ghost predicate LineFits(lines: seq<string>, i: nat, username: string, passwordMd5: string) {
    exists name, password, perm ::
      UserLine(lines, i, name, password, perm) && Fit(name, password, username, passwordMd5)
  }

  lemma EntryIs(t: string)
    ensures IsEntry(t) <==> t != "" && t[0] !in "#;["
  {
  }

  lemma UserAtIs(lines: seq<string>, i: nat)
    requires i < |lines|
    ensures UserAt(lines, i) == if IsEntry(Trimmed(lines[i])) && SectionBefore(lines, i) == "users"
      then ParseUser(Value(Trimmed(lines[i]))) else None
  {
  }

  lemma LineOfText(lines: seq<string>, i: nat, name: string, password: string, perm: string)
    requires UserLine(lines, i, name, password, perm)
    ensures UserAt(lines, i) == Some(MakeUser(name, password, perm))
  {
    hide IsEntry, Trimmed, Value, SectionBefore, ParseUser, MakeUser, Fields, UsersUpTo, UserAt;
    EntryIs(Trimmed(lines[i]));
    UserAtIs(lines, i);
    ParseOfFields(Value(Trimmed(lines[i])), name, password, perm);
  }

  lemma TextOfLine(lines: seq<string>, i: nat) returns (name: string, password: string, perm: string)
    requires i < |lines| && UserAt(lines, i).Some? && |UsersUpTo(lines, i)| < MAX_USERS
    ensures UserLine(lines, i, name, password, perm) && UserAt(lines, i) == Some(MakeUser(name, password, perm))
  {
    hide IsEntry, Trimmed, Value, SectionBefore, ParseUser, MakeUser, Fields, UsersUpTo, UserAt;
    EntryIs(Trimmed(lines[i]));
    UserAtIs(lines, i);
    name, password, perm := FieldsOfParse(Value(Trimmed(lines[i])));
  }

  /** What the file loads: every kept line of `[users]` is an entry of the table that says what the line says. */
  lemma LoadedUser(lines: seq<string>, i: nat, name: string, password: string, perm: string)
    requires UserLine(lines, i, name, password, perm)
    ensures |UsersUpTo(lines, i)| < |Kept(lines)|
    ensures var u := Kept(lines)[|UsersUpTo(lines, i)|];
      && u.username == (if |name| <= 63 then name else name[..63])
      && u.password == Md5.Md5Hex(ToBytes(password))
      && (u.perm == PermRW <==> perm == "rw" || perm == "RW")
      && (u.perm == PermRO <==> perm == "ro" || perm == "RO")
  {
    hide *;
    UserLineInside(lines, i, name, password, perm);
    LineOfText(lines, i, name, password, perm);
    MadeUser(name, password, perm);
    KeptAt(lines, i);
  }

  lemma KeptAt(lines: seq<string>, i: nat)
    requires i < |lines| && UserAt(lines, i).Some? && |UsersUpTo(lines, i)| < MAX_USERS
    ensures |UsersUpTo(lines, i)| < |Kept(lines)| && Kept(lines)[|UsersUpTo(lines, i)|] == UserAt(lines, i).value
  {
    hide *;
    UserOfLine(lines, |lines|, i);
    KeptFirst(lines);
  }

  lemma KeptFirst(lines: seq<string>)
    ensures var all := UsersUpTo(lines, |lines|);
      |Kept(lines)| == (if |all| <= MAX_USERS then |all| else MAX_USERS) && Kept(lines) <= all
  {
    hide UsersUpTo;
  }

  lemma AdmitsIsText(lines: seq<string>, i: nat, username: string, passwordMd5: string)
    ensures Admits(lines, i, username, passwordMd5) <==> LineFits(lines, i, username, passwordMd5)
  {
    hide UserAt, UserLine, MakeUser, ToBytes, Md5.Md5Hex, UsersUpTo;
    if Admits(lines, i, username, passwordMd5) {
      var name, password, perm := TextOfLine(lines, i);
      MadeUser(name, password, perm);
      assert Fit(name, password, username, passwordMd5);
    }
    forall name, password, perm
      | UserLine(lines, i, name, password, perm) && Fit(name, password, username, passwordMd5)
      ensures Admits(lines, i, username, passwordMd5)
    {
      LineOfText(lines, i, name, password, perm);
      MadeUser(name, password, perm);
      UserLineInside(lines, i, name, password, perm);
    }
  }

  lemma UserLineInside(lines: seq<string>, i: nat, name: string, password: string, perm: string)
    requires UserLine(lines, i, name, password, perm)
    ensures i < |lines| && |UsersUpTo(lines, i)| < MAX_USERS
  {
  }

  /**
   What a login meets, read off the file: credentials are accepted with permission `p` exactly when the first line of
   `[users]` (of those the table has room for) whose name, up to 63 characters, and whose hashed password are these says
   the word for `p`: rw or RW for read-write, ro or RO for read-only, anything else for none.
   */
  lemma LoginDecision(lines: seq<string>, username: string, passwordMd5: string, p: Permission)
    ensures FirstMatch(Kept(lines), username, passwordMd5) == Some(p) <==>
      exists i: nat, name, password, perm ::
        && UserLine(lines, i, name, password, perm) && Fit(name, password, username, passwordMd5)
        && (p == PermRW <==> perm == "rw" || perm == "RW") && (p == PermRO <==> perm == "ro" || perm == "RO")
        && forall j: nat | j < i :: !LineFits(lines, j, username, passwordMd5)
  {
    DecidedByLine(lines, username, passwordMd5, p);
    AdmittedInside(lines);
    hide FirstMatch, UserAt, UserLine, Fit, LineFits, FirstAdmitted, Kept;
    if i: nat :| FirstAdmitted(lines, i, username, passwordMd5) && UserAt(lines, i).value.perm == p {
      var name, password, perm := DecidingText(lines, i, username, passwordMd5);
    }
    forall i: nat, name, password, perm
      | && UserLine(lines, i, name, password, perm) && Fit(name, password, username, passwordMd5)
        && (p == PermRW <==> perm == "rw" || perm == "RW") && (p == PermRO <==> perm == "ro" || perm == "RO")
        && forall j: nat | j < i :: !LineFits(lines, j, username, passwordMd5)
      ensures FirstMatch(Kept(lines), username, passwordMd5) == Some(p)
    {
      TextDecides(lines, i, name, password, perm, username, passwordMd5);
    }
  }

  lemma NoEarlierFit(lines: seq<string>, i: nat, username: string, passwordMd5: string)
    ensures (forall j: nat | j < i :: !Admits(lines, j, username, passwordMd5))
      <==> (forall j: nat | j < i :: !LineFits(lines, j, username, passwordMd5))
  {
    hide Admits, LineFits;
    forall j: nat ensures Admits(lines, j, username, passwordMd5) <==> LineFits(lines, j, username, passwordMd5) {
      AdmitsIsText(lines, j, username, passwordMd5);
    }
  }

  lemma DecidingText(lines: seq<string>, i: nat, username: string, passwordMd5: string)
    returns (name: string, password: string, perm: string)
    requires FirstAdmitted(lines, i, username, passwordMd5)
    ensures i < |lines| && UserAt(lines, i).Some?
    ensures UserLine(lines, i, name, password, perm) && Fit(name, password, username, passwordMd5)
    ensures var p := UserAt(lines, i).value.perm;
      (p == PermRW <==> perm == "rw" || perm == "RW") && (p == PermRO <==> perm == "ro" || perm == "RO")
    ensures forall j: nat | j < i :: !LineFits(lines, j, username, passwordMd5)
  {
    NoEarlierFit(lines, i, username, passwordMd5);
    hide UserAt, UserLine, Fit, LineFits, MakeUser, Admits;
    AdmittedRoom(lines, i, username, passwordMd5);
    name, password, perm := TextOfLine(lines, i);
    MadeUser(name, password, perm);
    FitOfText(lines, i, name, password, perm, username, passwordMd5);
  }

  lemma TextDecides(lines: seq<string>, i: nat, name: string, password: string, perm: string, username: string,
                    passwordMd5: string)
    requires UserLine(lines, i, name, password, perm) && Fit(name, password, username, passwordMd5)
    requires forall j: nat | j < i :: !LineFits(lines, j, username, passwordMd5)
    ensures i < |lines| && UserAt(lines, i).Some? && FirstAdmitted(lines, i, username, passwordMd5)
    ensures var p := UserAt(lines, i).value.perm;
      (p == PermRW <==> perm == "rw" || perm == "RW") && (p == PermRO <==> perm == "ro" || perm == "RO")
  {
    UserLineInside(lines, i, name, password, perm);
    NoEarlierFit(lines, i, username, passwordMd5);
    hide UserAt, UserLine, Fit, LineFits, MakeUser, Admits;
    LineOfText(lines, i, name, password, perm);
    MadeUser(name, password, perm);
    FitsText(lines, i, name, password, perm, username, passwordMd5);
    AdmitsIsText(lines, i, username, passwordMd5);
  }

  lemma AdmittedRoom(lines: seq<string>, i: nat, username: string, passwordMd5: string)
    requires Admits(lines, i, username, passwordMd5)
    ensures i < |lines| && UserAt(lines, i).Some? && |UsersUpTo(lines, i)| < MAX_USERS
  {
    hide UserAt, UsersUpTo;
  }

  lemma FitOfText(lines: seq<string>, i: nat, name: string, password: string, perm: string, username: string,
                  passwordMd5: string)
    requires Admits(lines, i, username, passwordMd5) && UserAt(lines, i) == Some(MakeUser(name, password, perm))
    ensures Fit(name, password, username, passwordMd5)
  {
    MadeUser(name, password, perm);
    hide UserAt, MakeUser, UsersUpTo, ToBytes, Md5.Md5Hex;
  }

  lemma FitsText(lines: seq<string>, i: nat, name: string, password: string, perm: string, username: string,
                 passwordMd5: string)
    requires UserLine(lines, i, name, password, perm) && Fit(name, password, username, passwordMd5)
    ensures LineFits(lines, i, username, passwordMd5)
  {
    hide UserLine, Fit;
  }

  /**
   The client sends the hexadecimal MD5 of what the user types. On passwords whose length leaves room for the padding
   that is what the server stored, so the configured password fits its own entry.
   */
  lemma ClientPasswordFits(value: string, name: string, password: string, perm: string)
    requires Fields(value, name, password, perm) && |name| <= FIELD
    requires |password| % 64 <= 55 && |password| < 512
    ensures ParseUser(value).Some?
    ensures var u := ParseUser(value).value;
      u.username == name && u.password == Md5.Hex(Rfc1321.Digest(ToBytes(password)))
  {
    ParseOfFields(value, name, password, perm);
    Md5.EncodedIsDigest(ToBytes(password));
  }
}
