/** The plugin's main class (public/includes/lasso.php): the shared instance
    and activation / deactivation across the blogs of a network. */
module Lasso {
  import opened Php

  const VersionOption := "lasso_version"
  const UpdatedFromOption := "lasso_updated_from"
  const WelcomeTransient := "_lasso_welcome_redirect"
  const WelcomeSeconds := 30

  /** The plugin object; its own state is not part of this model. */
  class Plugin {
    constructor ()
    {
    }
  }

  /** Holds the class's static `$instance`. */
  class Registry {
    var instance: Plugin?

    constructor ()
      ensures instance == null
    {
      instance := null;
    }

    /** `get_instance`: creates the instance on the first call, and returns
        the stored one on every call. */
    method GetInstance() returns (p: Plugin)
      modifies this
      ensures old(instance) != null ==> p == old(instance)
      ensures old(instance) == null ==> fresh(p)
      ensures instance == p
    {
      if instance == null {
        instance := new Plugin();
      }
      p := instance;
    }
  }

  /** Two calls in a row give the same object. */
  method GetInstanceTwice(r: Registry) returns (first: Plugin, second: Plugin)
    modifies r
    ensures first == second
  {
    first := r.GetInstance();
    second := r.GetInstance();
  }

  /** A transient: its value and its lifetime in seconds. */
  datatype Transient = Transient(value: PhpValue, expiration: int)

  /** One blog's options and transients. */
  datatype Blog = Blog(options: map<string, PhpValue>, transients: map<string, Transient>)

  /** `get_option($name)`: false when the option is not set. */
  function GetOption(options: map<string, PhpValue>, name: string): PhpValue {
    if name in options then options[name] else Bool(false)
  }

  /** `single_activate` with `version` as `LASSO_VERSION`. */
  function SingleActivate(b: Blog, version: string): (r: Blog)
    ensures VersionOption in r.options && r.options[VersionOption] == Str(version)
    ensures Truthy(GetOption(b.options, VersionOption)) ==>
      UpdatedFromOption in r.options && r.options[UpdatedFromOption] == b.options[VersionOption]
    ensures !Truthy(GetOption(b.options, VersionOption)) ==>
      GetOption(r.options, UpdatedFromOption) == GetOption(b.options, UpdatedFromOption) &&
      (UpdatedFromOption in r.options <==> UpdatedFromOption in b.options)
    ensures forall k :: k != VersionOption && k != UpdatedFromOption ==>
      (k in r.options <==> k in b.options) && (k in r.options ==> r.options[k] == b.options[k])
    ensures r.transients.Keys == b.transients.Keys + {WelcomeTransient}
    ensures r.transients[WelcomeTransient] == Transient(Bool(true), WelcomeSeconds)
    ensures forall k :: k in b.transients && k != WelcomeTransient ==> r.transients[k] == b.transients[k]
  {
    var current := GetOption(b.options, VersionOption);
    var options := if Truthy(current) then b.options[UpdatedFromOption := current] else b.options;
    Blog(options[VersionOption := Str(version)],
         b.transients[WelcomeTransient := Transient(Bool(true), WelcomeSeconds)])
  }

  /** An upgrade: activating a second version records the first one as the
      version upgraded from. */
  lemma UpgradeRecordsPriorVersion(b: Blog, v1: string, v2: string)
    requires Truthy(Str(v1))
    ensures var r := SingleActivate(SingleActivate(b, v1), v2);
      r.options[VersionOption] == Str(v2) && r.options[UpdatedFromOption] == Str(v1)
  {
  }

  /** `single_activate` on one blog of the network. */
  function ActivateOne(blogs: map<nat, Blog>, id: nat, version: string): (r: map<nat, Blog>)
    requires id in blogs
    ensures r.Keys == blogs.Keys
  {
    blogs[id := SingleActivate(blogs[id], version)]
  }

  /** `single_activate` on each listed blog in turn. */
  function ActivateAll(blogs: map<nat, Blog>, ids: seq<nat>, version: string): (r: map<nat, Blog>)
    requires forall i :: 0 <= i < |ids| ==> ids[i] in blogs
    ensures r.Keys == blogs.Keys
  {
    if ids == [] then blogs
    else ActivateOne(ActivateAll(blogs, ids[..|ids| - 1], version), ids[|ids| - 1], version)
  }

  predicate Distinct(ids: seq<nat>) {
    forall i, j :: 0 <= i < j < |ids| ==> ids[i] != ids[j]
  }

  /** Over distinct blog ids, each listed blog is activated exactly once and
      every other blog is left alone. */
  lemma {:induction false} ActivateAllDistinct(blogs: map<nat, Blog>, ids: seq<nat>, version: string)
    requires forall i :: 0 <= i < |ids| ==> ids[i] in blogs
    requires Distinct(ids)
    ensures forall id :: id in blogs ==>
      ActivateAll(blogs, ids, version)[id] == if id in ids then SingleActivate(blogs[id], version) else blogs[id]
  {
    if ids != [] {
      var init := ids[..|ids| - 1];
      var last := ids[|ids| - 1];
      ActivateAllDistinct(blogs, init, version);
      assert last !in init by {
        forall i | 0 <= i < |init| ensures init[i] != last {
          assert ids[i] == init[i];
        }
      }
      forall id | id in blogs
        ensures ActivateAll(blogs, ids, version)[id] == if id in ids then SingleActivate(blogs[id], version) else blogs[id]
      {
        assert id in ids <==> id in init || id == last;
      }
    }
  }

  /** The blogs of the site. `multisite` stands for `is_multisite()` being
      available and true, `current` for the blog the request runs on. */
  class Network {
    const multisite: bool
    const current: nat
    const version: string
    var blogs: map<nat, Blog>

    predicate Valid()
      reads this
    {
      current in blogs
    }

    constructor (multisite: bool, current: nat, version: string, blogs: map<nat, Blog>)
      requires current in blogs
      ensures Valid()
      ensures this.multisite == multisite && this.current == current
      ensures this.version == version && this.blogs == blogs
    {
      this.multisite := multisite;
      this.current := current;
      this.version := version;
      this.blogs := blogs;
    }

    /** The blogs the single-blog step runs on: every listed blog when the
        activation is network-wide on a multisite, else the current one. */
    function Targets(networkWide: bool, blogIds: seq<nat>): (ids: seq<nat>)
      reads this
      ensures multisite && networkWide ==> ids == blogIds
      ensures !(multisite && networkWide) ==> ids == [current]
    {
      if multisite && networkWide then blogIds else [current]
    }

    /** `activate($network_wide)`; `blogIds` are the ids the network query returns. */
    method Activate(networkWide: bool, blogIds: seq<nat>) returns (ranOn: seq<nat>)
      requires Valid()
      requires forall i :: 0 <= i < |blogIds| ==> blogIds[i] in blogs
      modifies this
      ensures Valid()
      ensures ranOn == Targets(networkWide, blogIds)
      ensures blogs == ActivateAll(old(blogs), ranOn, version)
    {
      if multisite && networkWide {
        ranOn := [];
        var i := 0;
        while i < |blogIds|
          invariant 0 <= i <= |blogIds|
          invariant ranOn == blogIds[..i]
          invariant blogs == ActivateAll(old(blogs), ranOn, version)
        {
          blogs := blogs[blogIds[i] := SingleActivate(blogs[blogIds[i]], version)];
          ranOn := ranOn + [blogIds[i]];
          assert ranOn[..|ranOn| - 1] == blogIds[..i];
          i := i + 1;
        }
        assert blogIds[..|blogIds|] == blogIds;
      } else {
        blogs := blogs[current := SingleActivate(blogs[current], version)];
        ranOn := [current];
        assert ranOn[..0] == [];
      }
    }

    /** `deactivate($network_wide)`: the single-blog step is empty, so only
        the blogs it runs on are observable. */
    method Deactivate(networkWide: bool, blogIds: seq<nat>) returns (ranOn: seq<nat>)
      ensures ranOn == Targets(networkWide, blogIds)
    {
      if multisite && networkWide {
        ranOn := [];
        for i := 0 to |blogIds|
          invariant ranOn == blogIds[..i]
        {
          ranOn := ranOn + [blogIds[i]];
        }
        assert blogIds[..|blogIds|] == blogIds;
      } else {
        ranOn := [current];
      }
    }
  }
}
