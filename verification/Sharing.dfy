/** Who may use which share: access levels, share modes and access lists. */
module Sharing {
  import opened Bytes

  datatype Access = Read | ReadWrite {
    predicate AllowsWrite() {
      ReadWrite?
    }

    function ClampTo(cap: Access): Access {
      if ReadWrite? && cap.ReadWrite? then ReadWrite else Read
    }
  }

  datatype Mode = Public | PublicReadOnly | AuthenticatedOnly {
    predicate IsPublic() {
      Public? || PublicReadOnly?
    }
  }

  datatype Acl = Acl(mode: Mode, users: map<string, Access>)

  datatype Identity = Anonymous | User(name: string)

  /** `authorize`. */
  function Authorize(acl: Acl, who: Identity): Option<Access> {
    match acl.mode
    case Public => Some(ReadWrite)
    case PublicReadOnly => Some(Read)
    case AuthenticatedOnly =>
      if who.User? && who.name in acl.users then Some(acl.users[who.name]) else None
  }

  function LowerChar(c: char): char {
    if 'A' <= c <= 'Z' then c - 'A' + 'a' else c
  }

  /** `to_ascii_lowercase`; names compare ignoring ASCII case exactly when these agree. */
  function Lower(s: string): string {
    seq(|s|, i requires 0 <= i < |s| => LowerChar(s[i]))
  }

  /** Equal, or the same ASCII letter in upper and lower case. */
  predicate SameLetter(a: char, b: char) {
    || a == b
    || (65 <= a as int <= 90 && b as int == a as int + 32)
    || (65 <= b as int <= 90 && a as int == b as int + 32)
  }

  /** Two characters fold alike exactly when they are equal or the same letter in either case. */
  lemma FoldsCase(a: char, b: char)
    ensures LowerChar(a) == LowerChar(b) <==> SameLetter(a, b)
  {
  }

  /** Two names compare equal exactly when they do character by character. */
  lemma NamesFoldCase(a: string, b: string)
    ensures Lower(a) == Lower(b) <==> |a| == |b| && forall i :: 0 <= i < |a| ==> SameLetter(a[i], b[i])
  {
    if |a| == |b| {
      forall i | 0 <= i < |a|
        ensures Lower(a)[i] == Lower(b)[i] <==> SameLetter(a[i], b[i])
      {
        FoldsCase(a[i], b[i]);
      }
      if Lower(a) != Lower(b) {
        var i :| 0 <= i < |a| && Lower(a)[i] != Lower(b)[i];
      }
    } else {
      assert |Lower(a)| != |Lower(b)|;
    }
  }

  const IPC: string := "IPC$"

  datatype ConfigError =
    | UnknownUser | UnknownShare | DuplicateShare | PublicMixedWithUsers
    | ReservedUserName | EmptyUserName | ReservedShareName | MissingListenAddress

  function ValidateUserName(name: string): Option<ConfigError> {
    if name == "" then Some(EmptyUserName)
    else if Lower(name) == Lower("anonymous") then Some(ReservedUserName)
    else None
  }

  function ValidateShareName(name: string): Option<ConfigError> {
    if Lower(name) == Lower(IPC) then Some(ReservedShareName) else None
  }

  /** A share as it is declared to the builder or to `add_share`. */
  datatype ShareDecl = ShareDecl(name: string, readOnly: bool, acl: Acl)

  /** An access list is coherent with a user table. */
  predicate AclWithin(acl: Acl, users: set<string>) {
    acl.users.Keys <= users && (acl.mode.IsPublic() ==> acl.users == map[])
  }
}
