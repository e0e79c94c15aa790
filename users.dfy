/**
 * The user records of models/user.go, kept in the `Users` bucket of the
 * key-value store under the user's address. A record is `User{Address,
 * Sites}` (database/bolt.go:18-21).
 */
module Users {
  import opened Common

  datatype User = User(address: string, sites: seq<string>)

  /** The error every store operation returns while the database is not open. */
  const NotInitialized: string := "database not initialized"

  /** No site name occurs twice. */
  predicate NoDup(sites: seq<string>)
  {
    forall i, j | 0 <= i < j < |sites| :: sites[i] != sites[j]
  }

  /**
   * The `Users` bucket. `ready` says that the database is open and holds the
   * bucket; every operation fails without touching the records otherwise.
   */
  class UserStore {
    var users: map<string, User>
    var ready: bool

    /** Every record sits under its own address. */
    ghost predicate Keyed()
      reads this`users
    {
      forall a | a in users :: users[a].address == a
    }

    /** Every record lists each site at most once. */
    ghost predicate Distinct()
      reads this`users
    {
      forall a | a in users :: NoDup(users[a].sites)
    }

    constructor (ready: bool)
      ensures users == map[] && this.ready == ready
    {
      users := map[];
      this.ready := ready;
    }

    /** User.Save (models/user.go:10-12): the record is written under its own address. */
    method Save(u: User) returns (err: Option<string>)
      modifies this`users
      ensures err == if ready then None else Some(NotInitialized)
      ensures users == if ready then old(users)[u.address := u] else old(users)
    {
      if !ready {
        return Some(NotInitialized);
      }
      users := users[u.address := u];
      err := None;
    }

    /** GetUser (models/user.go:15-24): the record under `address`, or an error when it cannot be read. */
    method GetUser(address: string) returns (r: Result<User, string>)
      ensures r.Ok? <==> ready && address in users
      ensures r.Ok? ==> r.value == users[address]
      ensures r.Err? ==> HasPrefix(r.error, "user not found: ")
    {
      var cause;
      if !ready {
        cause := NotInitialized;
      } else if address !in users {
        cause := "key \"" + address + "\" not found";
      } else {
        return Ok(users[address]);
      }
      r := Err("user not found: " + cause);
      PrefixOfAppend("user not found: ", cause);
    }

    /** DeleteUser (models/user.go:27-29): removing a missing key is not an error. */
    method DeleteUser(address: string) returns (err: Option<string>)
      modifies this`users
      ensures err == if ready then None else Some(NotInitialized)
      ensures users == if ready then old(users) - {address} else old(users)
      ensures ready ==> address !in users
    {
      if !ready {
        return Some(NotInitialized);
      }
      users := users - {address};
      err := None;
    }

    /**
     * AddSiteToUser (models/user.go:32-53). A user that cannot be read, for
     * whatever reason, is created with `siteName` as its only site; a site the
     * user already has is an error that writes nothing; otherwise the site is
     * appended and the record saved under the record's own address.
     */
    method AddSiteToUser(userAddress: string, siteName: string) returns (err: Option<string>)
      modifies this`users
      ensures users == AddSite(old(users), ready, userAddress, siteName).0
      ensures err == AddSite(old(users), ready, userAddress, siteName).1
      ensures old(Keyed() && Distinct()) ==> Keyed() && Distinct()
    {
      var found := GetUser(userAddress);
      var user;
      if found.Err? {
        user := User(userAddress, [siteName]);
      } else {
        user := found.value;
        for i := 0 to |user.sites|
          invariant forall j | 0 <= j < i :: user.sites[j] != siteName
        {
          if user.sites[i] == siteName {
            assert siteName in found.value.sites;
            return Some("site \"" + siteName + "\" already exists for user " + userAddress);
          }
        }
        assert siteName !in user.sites;
        user := user.(sites := user.sites + [siteName]);
      }
      err := Save(user);
      if old(Keyed() && Distinct()) {
        AddSiteKeepsRecords(old(users), ready, userAddress, siteName);
      }
    }
  }

  /** The records and the error AddSiteToUser leaves, as a function of the records before. */
  function AddSite(users: map<string, User>, ready: bool, address: string, site: string)
    : (r: (map<string, User>, Option<string>))
    ensures !ready ==> r == (users, Some(NotInitialized))
    ensures ready && address !in users ==> r == (users[address := User(address, [site])], None)
    ensures ready && address in users && site in users[address].sites ==> r.0 == users && r.1.Some?
    ensures ready && address in users && site !in users[address].sites ==>
      r == (users[users[address].address := users[address].(sites := users[address].sites + [site])], None)
  {
    if !ready then (users, Some(NotInitialized))
    else if address !in users then (users[address := User(address, [site])], None)
    else if site in users[address].sites then
      (users, Some("site \"" + site + "\" already exists for user " + address))
    else
      var u := users[address];
      (users[u.address := u.(sites := u.sites + [site])], None)
  }

  /** Adding a site never duplicates one, and only the user's own record changes. */
  lemma AddSiteKeepsRecords(users: map<string, User>, ready: bool, address: string, site: string)
    requires forall a | a in users :: users[a].address == a && NoDup(users[a].sites)
    ensures var after := AddSite(users, ready, address, site).0;
      && (forall a | a in after :: after[a].address == a && NoDup(after[a].sites))
      && (forall a | a != address :: (a in after <==> a in users) && (a in users ==> after[a] == users[a]))
      && (ready ==> address in after && site in after[address].sites)
  {
    var after := AddSite(users, ready, address, site).0;
    if ready && address in users && site !in users[address].sites {
      var s := users[address].sites + [site];
      forall i, j | 0 <= i < j < |s| ensures s[i] != s[j] {
        if j == |s| - 1 {
          assert s[i] == users[address].sites[i];
        }
      }
      assert after[address].sites == s;
      assert s[|s| - 1] == site;
    }
    if ready && address !in users {
      assert after[address].sites == [site];
    }
  }

  /**
   * Adding a site keeps the sites already there, in order, and puts the new
   * one last.
   */
  lemma AddSiteAppends(users: map<string, User>, address: string, site: string)
    requires address in users && users[address].address == address && site !in users[address].sites
    ensures var after := AddSite(users, true, address, site).0;
      && address in after && |after[address].sites| == |users[address].sites| + 1
      && after[address].sites[..|users[address].sites|] == users[address].sites
      && after[address].sites[|users[address].sites|] == site
  {
    var old_sites := users[address].sites;
    assert (old_sites + [site])[..|old_sites|] == old_sites;
  }
}
