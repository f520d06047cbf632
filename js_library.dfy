/** Resetting the evaluation worker's JavaScript libraries: the installed
    library list goes back to the default libraries, and every reserved name
    that no default library claims is released and its global cleared. */
module JSLibrary {
  import opened Wrappers

  /** A JavaScript library available to bindings. Its accessors are the names
      under which it is reachable on the worker's global scope. */
  datatype Library = Library(name: string, accessor: seq<string>, docsURL: string)

  /** A value held by the worker's global scope: `undefined`, or something a
      library installed there (its content is not modelled). */
  datatype GlobalValue = Undefined | Installed(handle: nat)

  /** A JavaScript array of libraries, updated in place. */
  class LibraryArray {
    var items: seq<Library>

    constructor (items: seq<Library>)
      ensures this.items == items
    {
      this.items := items;
    }
  }

  /** A JavaScript `Set` of reserved global names, updated in place. */
  class ReservedNameSet {
    var names: set<string>

    constructor (names: set<string>)
      ensures this.names == names
    {
      this.names := names;
    }
  }

  /** The worker's global object `self`, as a map from property name to value. */
  class WorkerScope {
    var globals: map<string, GlobalValue>

    constructor (globals: map<string, GlobalValue>)
      ensures this.globals == globals
    {
      this.globals := globals;
    }
  }

  /** `lib.accessor[0]`, which is `undefined` when the library has no accessor. */
  function FirstAccessor(lib: Library): Option<string>
  {
    if |lib.accessor| > 0 then Some(lib.accessor[0]) else None
  }

  /** `defaultLibraries.map((lib) => lib.accessor[0])`. */
  function DefaultLibraryAccessors(libs: seq<Library>): seq<Option<string>>
  {
    seq(|libs|, i requires 0 <= i < |libs| => FirstAccessor(libs[i]))
  }

  /** key is the first accessor of one of the libraries. */
  ghost predicate IsFirstAccessor(libs: seq<Library>, key: string) {
    exists i :: 0 <= i < |libs| && |libs[i].accessor| > 0 && libs[i].accessor[0] == key
  }

  /** `defaultLibraryAccessors.includes(key)` holds exactly for the first
      accessors of the default libraries; a library without accessors matches
      no name. */
  lemma AccessorsIncludeExactlyFirstAccessors(libs: seq<Library>, key: string)
    ensures Some(key) in DefaultLibraryAccessors(libs) <==> IsFirstAccessor(libs, key)
  {
    var accessors := DefaultLibraryAccessors(libs);
    if Some(key) in accessors {
      var i :| 0 <= i < |accessors| && accessors[i] == Some(key);
      assert FirstAccessor(libs[i]) == Some(key);
    }
    if IsFirstAccessor(libs, key) {
      var i :| 0 <= i < |libs| && |libs[i].accessor| > 0 && libs[i].accessor[0] == key;
      assert accessors[i] == Some(key);
    }
  }

  /** The reserved names that survive a reset: those some default library
      claims as its first accessor. */
  function RetainedNames(reserved: set<string>, libs: seq<Library>): (r: set<string>)
    ensures r <= reserved
    ensures forall key :: key in r ==> IsFirstAccessor(libs, key)
    ensures forall key :: key in reserved && IsFirstAccessor(libs, key) ==> key in r
  {
    var accessors := DefaultLibraryAccessors(libs);
    var r := set key | key in reserved && Some(key) in accessors;
    forall key | key in reserved
      ensures key in r <==> IsFirstAccessor(libs, key)
    {
      AccessorsIncludeExactlyFirstAccessors(libs, key);
    }
    r
  }

  /** `undefined` assigned on `self` under every name in keys. */
  function Cleared(keys: set<string>): map<string, GlobalValue>
  {
    map key | key in keys :: Undefined
  }

  /** A reset never reserves a new name, and resetting twice releases nothing
      more than resetting once. */
  lemma RetainedNamesIdempotent(reserved: set<string>, libs: seq<Library>)
    ensures RetainedNames(RetainedNames(reserved, libs), libs) == RetainedNames(reserved, libs)
  {
    var once := RetainedNames(reserved, libs);
    var twice := RetainedNames(once, libs);
    forall key | key in once ensures key in twice {
      assert IsFirstAccessor(libs, key);
    }
  }

  /** resetJSLibraries: empties the installed library array and refills it
      with the default libraries; then every reserved name that is not the
      first accessor of a default library has its global set to `undefined`
      and is removed from the reserved set. Returns the reset array. */
  method ResetJSLibraries(jsLibraries: LibraryArray, defaultLibraries: LibraryArray,
                          libraryReservedNames: ReservedNameSet, scope: WorkerScope)
    returns (result: LibraryArray)
    requires jsLibraries != defaultLibraries
    modifies jsLibraries, libraryReservedNames, scope
    ensures result == jsLibraries
    ensures jsLibraries.items == defaultLibraries.items
    ensures unchanged(defaultLibraries)
    ensures libraryReservedNames.names
         == RetainedNames(old(libraryReservedNames.names), defaultLibraries.items)
    ensures scope.globals
         == old(scope.globals) + Cleared(old(libraryReservedNames.names) - libraryReservedNames.names)
  {
    jsLibraries.items := [];
    jsLibraries.items := jsLibraries.items + defaultLibraries.items;
    var defaultLibraryAccessors := DefaultLibraryAccessors(defaultLibraries.items);
    ghost var reserved := libraryReservedNames.names;
    ghost var globals := scope.globals;
    ghost var retained := RetainedNames(reserved, defaultLibraries.items);
    ghost var released: set<string> := {};
    var toVisit := libraryReservedNames.names;
    while toVisit != {}
      invariant toVisit <= reserved
      invariant released == (reserved - toVisit) - retained
      invariant libraryReservedNames.names == reserved - released
      invariant scope.globals == globals + Cleared(released)
      invariant jsLibraries.items == defaultLibraries.items
      decreases toVisit
    {
      var key :| key in toVisit;
      AccessorsIncludeExactlyFirstAccessors(defaultLibraries.items, key);
      VisitOneName(reserved, toVisit, retained, key);
      if Some(key) !in defaultLibraryAccessors {
        assert key !in retained;
        ClearOneMore(globals, released, key);
        scope.globals := scope.globals[key := Undefined];
        libraryReservedNames.names := libraryReservedNames.names - {key};
        released := released + {key};
      } else {
        assert key in retained;
      }
      toVisit := toVisit - {key};
    }
    assert released == reserved - retained;
    assert reserved - released == retained;
    result := jsLibraries;
  }

  /** Visiting one more reserved name releases it exactly when it is not retained. */
  lemma VisitOneName(reserved: set<string>, toVisit: set<string>, retained: set<string>, key: string)
    requires key in toVisit && key in reserved
    ensures key !in retained ==> (reserved - (toVisit - {key})) - retained == ((reserved - toVisit) - retained) + {key}
    ensures key in retained ==> (reserved - (toVisit - {key})) - retained == (reserved - toVisit) - retained
  {
  }

  /** Clearing one more name is one more `undefined` assignment. */
  lemma ClearOneMore(before: map<string, GlobalValue>, released: set<string>, key: string)
    ensures before + Cleared(released + {key}) == (before + Cleared(released))[key := Undefined]
  {
  }

  /** After a reset, every released name reads `undefined` on the global
      scope, and the globals of all other names are as before. */
  lemma ResetClearsExactlyReleasedGlobals(before: map<string, GlobalValue>, released: set<string>, key: string)
    ensures var after := before + Cleared(released);
      && (key in released ==> key in after && after[key] == Undefined)
      && (key !in released ==> (key in after <==> key in before))
      && (key !in released && key in before ==> after[key] == before[key])
  {
  }
}
