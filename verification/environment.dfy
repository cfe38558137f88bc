/** The package and user bookkeeping of the test environment: two name tables,
    each with a current entry. The first package published and the first user
    created become current; later ones only enter their table. The executor
    that publishes packages and makes keys and accounts is outside the model:
    what it produces is passed in as a parameter. */
module Environment {
  import opened Base

  /** An ECDSA public key, kept as its encoded bytes. */
  datatype PublicKey = PublicKey(bytes: Bytes)

  /** A test user: a public key and the account created for it. */
  datatype User = User(key: PublicKey, account: Address)

  class TestEnv {
    var users: map<string, User>
    var currentUser: Option<User>
    var packages: map<string, Address>
    var currentPackage: Option<Address>

    /** A current entry is set exactly when its table is non-empty. */
    ghost predicate Valid()
      reads this
    {
      && (currentUser.Some? <==> users != map[])
      && (currentPackage.Some? <==> packages != map[])
    }

    /** An environment with no users and no packages. */
    constructor ()
      ensures Valid()
      ensures users == map[] && currentUser == None
      ensures packages == map[] && currentPackage == None
    {
      users := map[];
      currentUser := None;
      packages := map[];
      currentPackage := None;
    }

    /** Records the address `published` under `name`, replacing any package of
        that name; the first package ever published becomes current. */
    method PublishPackage(name: string, published: Address)
      requires Valid()
      modifies this
      ensures Valid()
      ensures packages == old(packages)[name := published]
      ensures currentPackage == if old(currentPackage).None? then Some(published) else old(currentPackage)
      ensures users == old(users) && currentUser == old(currentUser)
    {
      packages := packages[name := published];
      assert name in packages;
      if currentPackage.None? {
        currentPackage := Some(published);
      }
    }

    /** The package published under `name`; a panic when there is none. */
    method GetPackage(name: string) returns (r: Result<Address>)
      ensures name in packages ==> r == Ok(packages[name])
      ensures name !in packages ==> r == Panic(PackageNotFound(name))
    {
      if name in packages {
        r := Ok(packages[name]);
      } else {
        r := Panic(PackageNotFound(name));
      }
    }

    /** Makes the package named `name` current; a panic, with nothing
        changed, when there is none. */
    method UsingPackage(name: string) returns (r: Result<()>)
      requires Valid()
      modifies this
      ensures Valid()
      ensures name in old(packages) ==> r == Ok(()) && currentPackage == Some(old(packages)[name])
      ensures name !in old(packages) ==> r == Panic(PackageNotFound(name)) && currentPackage == old(currentPackage)
      ensures packages == old(packages) && users == old(users) && currentUser == old(currentUser)
    {
      var package := GetPackage(name);
      match package
      case Panic(e) => r := Panic(e);
      case Ok(address) =>
        currentPackage := Some(address);
        r := Ok(());
    }

    /** Records a user made of the fresh `key` and `account` under `name`,
        replacing any user of that name; the first user ever created becomes
        current. */
    method CreateUser(name: string, key: PublicKey, account: Address) returns (user: User)
      requires Valid()
      modifies this
      ensures Valid()
      ensures user == User(key, account)
      ensures users == old(users)[name := user]
      ensures currentUser == if old(currentUser).None? then Some(user) else old(currentUser)
      ensures packages == old(packages) && currentPackage == old(currentPackage)
    {
      users := users[name := User(key, account)];
      user := User(key, account);
      assert name in users;
      if currentUser.None? {
        currentUser := Some(user);
      }
    }

    /** The user created under `name`; a panic when there is none. */
    method GetUser(name: string) returns (r: Result<User>)
      ensures name in users ==> r == Ok(users[name])
      ensures name !in users ==> r == Panic(UserNotFound(name))
    {
      if name in users {
        r := Ok(users[name]);
      } else {
        r := Panic(UserNotFound(name));
      }
    }

    /** Makes the user named `name` current; a panic, with nothing changed,
        when there is none. */
    method ActingAs(name: string) returns (r: Result<()>)
      requires Valid()
      modifies this
      ensures Valid()
      ensures name in old(users) ==> r == Ok(()) && currentUser == Some(old(users)[name])
      ensures name !in old(users) ==> r == Panic(UserNotFound(name)) && currentUser == old(currentUser)
      ensures users == old(users) && packages == old(packages) && currentPackage == old(currentPackage)
    {
      var user := GetUser(name);
      match user
      case Panic(e) => r := Panic(e);
      case Ok(u) =>
        currentUser := Some(u);
        r := Ok(());
    }

    /** The current user; in a valid environment this panics exactly when no
        user has been created. */
    method GetCurrentUser() returns (r: Result<User>)
      ensures currentUser.Some? ==> r == Ok(currentUser.value)
      ensures currentUser.None? ==> r == Panic(NoCurrentUser)
      ensures Valid() ==> (r.Panic? <==> users == map[])
    {
      match currentUser
      case Some(user) => r := Ok(user);
      case None => r := Panic(NoCurrentUser);
    }

    /** The current package; in a valid environment this panics exactly when
        no package has been published. */
    method GetCurrentPackage() returns (r: Result<Address>)
      ensures currentPackage.Some? ==> r == Ok(currentPackage.value)
      ensures currentPackage.None? ==> r == Panic(NoCurrentPackage)
      ensures Valid() ==> (r.Panic? <==> packages == map[])
    {
      match currentPackage
      case Some(package) => r := Ok(package);
      case None => r := Panic(NoCurrentPackage);
    }
  }

  /** The first user created stays current when a second one is created, and
      acting as the second makes it current. */
  method FirstUserIsDefault(key1: PublicKey, account1: Address, key2: PublicKey, account2: Address)
    returns (before: Result<User>, after: Result<User>)
    ensures before == Ok(User(key1, account1))
    ensures after == Ok(User(key2, account2))
  {
    var env := new TestEnv();
    var first := env.CreateUser("acc1", key1, account1);
    var second := env.CreateUser("acc2", key2, account2);
    before := env.GetCurrentUser();
    var switched := env.ActingAs("acc2");
    after := env.GetCurrentUser();
  }

  /** Publishing a second package under the name of the current one replaces
      the table entry but not the current package, which then names an
      address no longer in the table. */
  method RepublishKeepsCurrent(first: Address, second: Address)
    returns (current: Result<Address>, named: Result<Address>)
    ensures current == Ok(first)
    ensures named == Ok(second)
  {
    var env := new TestEnv();
    env.PublishPackage("package", first);
    env.PublishPackage("package", second);
    current := env.GetCurrentPackage();
    named := env.GetPackage("package");
  }

  /** Looking up a name in a fresh environment panics, as does asking for the
      current user or package. */
  method FreshEnvironmentPanics(name: string)
    returns (package: Result<Address>, user: Result<User>, currentUser: Result<User>, currentPackage: Result<Address>)
    ensures package == Panic(PackageNotFound(name))
    ensures user == Panic(UserNotFound(name))
    ensures currentUser == Panic(NoCurrentUser)
    ensures currentPackage == Panic(NoCurrentPackage)
  {
    var env := new TestEnv();
    package := env.GetPackage(name);
    user := env.GetUser(name);
    currentUser := env.GetCurrentUser();
    currentPackage := env.GetCurrentPackage();
  }
}
