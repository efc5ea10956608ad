/** From a connection's user id to the group of its app. */
module AppGroup {
  import opened Wrappers
  import opened Text

  datatype ParseError = EmptyUserID | MissingSeparator | TooManySeparators | AppRequired | UserRequired

  datatype Parsed = Parsed(group: string, appID: string)

  function FormatAppGroup(appID: string): string {
    "app:" + appID
  }

  function ParseAppGroup(userID: string): Result<Parsed, ParseError> {
    var id := TrimSpace(userID);
    if id == "" then Err(EmptyUserID) else
      var n := Find(id, ':');
      if n == |id| then Err(MissingSeparator)
      else if ':' in id[n + 1..] then Err(TooManySeparators)
      else
        var appID, userPart := TrimSpace(id[..n]), TrimSpace(id[n + 1..]);
        if appID == "" then Err(AppRequired)
        else if userPart == "" then Err(UserRequired)
        else Ok(Parsed(FormatAppGroup(appID), appID))
  }

  /** How many separators a user id holds decides between the first three errors. */
  function Colons(s: string): nat {
    if s == "" then 0 else (if s[0] == ':' then 1 else 0) + Colons(s[1..])
  }

  lemma {:induction false} ColonsSplit(a: string, b: string)
    ensures Colons(a + b) == Colons(a) + Colons(b)
  {
    if a == "" {
      assert a + b == b;
    } else {
      assert (a + b)[1..] == a[1..] + b;
      ColonsSplit(a[1..], b);
    }
  }

  lemma {:induction false} NoColons(s: string)
    ensures Colons(s) == 0 <==> ':' !in s
  {
    if s != "" {
      NoColons(s[1..]);
    }
  }

  /** Exactly one separator, with something that is not blank on both sides. */
  ghost predicate WellFormed(id: string, app: string, user: string) {
    && id == app + ":" + user
    && ':' !in app && ':' !in user
    && TrimSpace(app) != "" && TrimSpace(user) != ""
  }

  /** Parsing succeeds exactly on well-formed ids, whatever white space surrounds them, and
      yields the trimmed app id and its group. */
  lemma ParseAppGroupSpec(userID: string)
    ensures ParseAppGroup(userID).Ok? <==> exists app, user :: WellFormed(TrimSpace(userID), app, user)
    ensures forall app, user :: WellFormed(TrimSpace(userID), app, user) ==>
                                  ParseAppGroup(userID) == Ok(Parsed("app:" + TrimSpace(app), TrimSpace(app)))
  {
    var id := TrimSpace(userID);
    var n := Find(id, ':');
    if ParseAppGroup(userID).Ok? {
      assert id == id[..n] + ":" + id[n + 1..];
      assert WellFormed(id, id[..n], id[n + 1..]);
    }
    forall app, user | WellFormed(id, app, user)
      ensures ParseAppGroup(userID) == Ok(Parsed("app:" + TrimSpace(app), TrimSpace(app)))
    {
      assert id[|app|] == ':';
      assert forall i :: 0 <= i < |app| ==> id[i] == app[i];
      assert n == |app|;
      assert id[..n] == app && id[n + 1..] == user;
    }
  }

  /** The separators decide the error: none, or more than one. */
  lemma SeparatorErrors(userID: string)
    ensures ParseAppGroup(userID) == Err(EmptyUserID) <==> TrimSpace(userID) == ""
    ensures ParseAppGroup(userID) == Err(MissingSeparator) <==>
              TrimSpace(userID) != "" && Colons(TrimSpace(userID)) == 0
    ensures ParseAppGroup(userID) == Err(TooManySeparators) <==> Colons(TrimSpace(userID)) >= 2
  {
    var id := TrimSpace(userID);
    var n := Find(id, ':');
    NoColons(id);
    if n < |id| {
      assert id == id[..n] + (":" + id[n + 1..]);
      ColonsSplit(id[..n], ":" + id[n + 1..]);
      ColonsSplit(":", id[n + 1..]);
      NoColons(id[..n]);
      NoColons(id[n + 1..]);
      assert Colons(":") == 1;
    }
  }

  /** With one separator, the blank side decides the error, the app side first. */
  lemma BlankSideErrors(userID: string, app: string, user: string)
    requires TrimSpace(userID) == app + ":" + user && ':' !in app && ':' !in user
    ensures ParseAppGroup(userID) == Err(AppRequired) <==> AllSpace(app)
    ensures ParseAppGroup(userID) == Err(UserRequired) <==> !AllSpace(app) && AllSpace(user)
  {
    var id := TrimSpace(userID);
    var n := Find(id, ':');
    assert id[|app|] == ':';
    assert forall i :: 0 <= i < |app| ==> id[i] == app[i];
    assert n == |app| && id[..n] == app && id[n + 1..] == user;
    BlankIffAllSpace(app);
    BlankIffAllSpace(user);
    hide TrimSpace, AllSpace;
  }

  /** Two accepted ids share a group only if their app ids are equal. */
  lemma GroupNamesApp(a: string, b: string)
    requires ParseAppGroup(a).Ok? && ParseAppGroup(b).Ok?
    ensures ParseAppGroup(a).value.group == ParseAppGroup(b).value.group
            <==> ParseAppGroup(a).value.appID == ParseAppGroup(b).value.appID
  {
    var x, y := ParseAppGroup(a).value, ParseAppGroup(b).value;
    assert x.group[4..] == x.appID && y.group[4..] == y.appID;
  }
}
