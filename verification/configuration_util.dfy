/**
 A model of the configuration utility: a reference configuration packaged
 inside a bundle is located by file name, read as flat key/value properties,
 and overlaid with the user's configuration, user values winning.

 Configurations are Dafny maps from property name to value. The bundle is a
 pair of total functions: `findEntries` answers the bundle's entry search
 (None stands for a null enumeration) and `read` stands for opening an
 entry's stream and parsing it as properties text.
 */
module ConfigurationUtil {

  datatype Option<+T> = None | Some(value: T)

  /** The failures `load` can raise. */
  datatype ConfigError =
    | NotFound(name: string)   // the FileNotFoundException raised when no entry matches
    | InvalidFormat            // IllegalArgumentException: a malformed \uXXXX escape
    | IOFailure                // any IOException while opening or reading a matched entry
    | NullDereference          // NullPointerException (only the as-written loader raises it)

  datatype Result<+T> = Success(value: T) | Failure(error: ConfigError)

  /** What opening a bundle entry and loading it as properties text yields. */
  datatype ReadOutcome =
    | Loaded(properties: map<string, string>)
    | MalformedEscape
    | ReadFailed

  /** The bundle the reference configuration is packaged in. */
  datatype Bundle<!H> = Bundle(
    findEntries: (string, string, bool) -> Option<seq<H>>,
    read: H -> ReadOutcome)

  /* ---------------------------------------------------------------------- */
  /* Merging                                                                 */
  /* ---------------------------------------------------------------------- */

  /** The effective configuration: the reference configuration overridden
      by the user configuration. */
  function Merged<V>(user: map<string, V>, reference: map<string, V>): (config: map<string, V>)
    ensures config.Keys == user.Keys + reference.Keys
    ensures forall k :: k in user ==> config[k] == user[k]
    ensures forall k :: k in reference && k !in user ==> config[k] == reference[k]
  {
    reference + user
  }

  /** Copies the reference configuration, then puts every user entry over
      the copy (the putAll), in whatever order the keys come. */
  method MergeConfig<V>(user: map<string, V>, reference: map<string, V>) returns (config: map<string, V>)
    ensures config == Merged(user, reference)
  {
    config := reference;
    var pending := user.Keys;
    while pending != {}
      invariant pending <= user.Keys
      invariant config.Keys == reference.Keys + (user.Keys - pending)
      invariant forall k :: k in user && k !in pending ==> config[k] == user[k]
      invariant forall k :: k in reference && (k !in user || k in pending) ==> config[k] == reference[k]
      decreases pending
    {
      var key :| key in pending;
      config := config[key := user[key]];
      pending := pending - {key};
    }
  }

  lemma MergedEmptyUser<V>(reference: map<string, V>)
    ensures Merged(map[], reference) == reference
  {
  }

  lemma MergedEmptyReference<V>(user: map<string, V>)
    ensures Merged(user, map[]) == user
  {
  }

  lemma MergedIdempotent<V>(user: map<string, V>, reference: map<string, V>)
    ensures Merged(user, Merged(user, reference)) == Merged(user, reference)
  {
  }

  /** With disjoint key sets the merge is the plain union: neither side
      overrides anything, so the order of the arguments does not matter and
      no entry is lost. */
  lemma MergedDisjointIsUnion<V>(user: map<string, V>, reference: map<string, V>)
    requires user.Keys !! reference.Keys
    ensures Merged(user, reference) == Merged(reference, user)
    ensures |Merged(user, reference)| == |user| + |reference|
  {
  }

  /* ---------------------------------------------------------------------- */
  /* Loading the reference configuration                                     */
  /* ---------------------------------------------------------------------- */

  /** The entries matching `filename` at the bundle root, without recursion;
      a null answer counts as no entries. */
  function Matches<H>(filename: string, bundle: Bundle<H>): seq<H>
  {
    match bundle.findEntries("/", filename, false)
    case None => []
    case Some(entries) => entries
  }

  /** The reference configuration, or the error that loading it raises. */
  function ReferenceConfig<H>(filename: string, bundle: Bundle<H>): (r: Result<map<string, string>>)
    ensures r == Failure(NotFound(filename)) <==> Matches(filename, bundle) == []
    ensures r.Failure? && r.error.NotFound? ==> r.error.name == filename
    ensures r.Success? <==> Matches(filename, bundle) != [] && bundle.read(Matches(filename, bundle)[0]).Loaded?
    ensures r.Success? ==> r.value == bundle.read(Matches(filename, bundle)[0]).properties
    ensures r == Failure(InvalidFormat) <==>
      Matches(filename, bundle) != [] && bundle.read(Matches(filename, bundle)[0]) == MalformedEscape
    ensures r == Failure(IOFailure) <==>
      Matches(filename, bundle) != [] && bundle.read(Matches(filename, bundle)[0]) == ReadFailed
    ensures r != Failure(NullDereference)
  {
    var entries := Matches(filename, bundle);
    if entries == [] then
      Failure(NotFound(filename))
    else
      match bundle.read(entries[0])
      case Loaded(properties) => Success(properties)
      case MalformedEscape => Failure(InvalidFormat)
      case ReadFailed => Failure(IOFailure)
  }

  /** Finds the reference file, reads the first match only, and copies every
      property into a fresh configuration, one put per property name. */
  method LoadConfig<H>(filename: string, bundle: Bundle<H>) returns (r: Result<map<string, string>>)
    ensures r == ReferenceConfig(filename, bundle)
  {
    var config: map<string, string> := map[];
    var configs := bundle.findEntries("/", filename, false);
    if configs.Some? && |configs.value| > 0 {
      var path := configs.value[0];
      match bundle.read(path)
      case Loaded(properties) =>
        var names := properties.Keys;
        while names != {}
          invariant names <= properties.Keys
          invariant config.Keys == properties.Keys - names
          invariant forall k :: k in config ==> config[k] == properties[k]
          decreases names
        {
          var key :| key in names;
          config := config[key := properties[key]];
          names := names - {key};
        }
        assert config == properties;
        r := Success(config);
      case MalformedEscape =>
        r := Failure(InvalidFormat);
      case ReadFailed =>
        r := Failure(IOFailure);
    } else {
      r := Failure(NotFound(filename));
    }
  }

  /* ---------------------------------------------------------------------- */
  /* Load: load, then merge                                                  */
  /* ---------------------------------------------------------------------- */

  /** The effective configuration `load` returns, or the error it raises. */
  function Effective<H>(user: map<string, string>, filename: string, bundle: Bundle<H>): (r: Result<map<string, string>>)
    ensures ReferenceConfig(filename, bundle).Failure? ==> r == ReferenceConfig(filename, bundle)
    ensures ReferenceConfig(filename, bundle).Success? ==>
      r.Success? && r.value == Merged(user, ReferenceConfig(filename, bundle).value)
  {
    match ReferenceConfig(filename, bundle)
    case Success(reference) => Success(Merged(user, reference))
    case Failure(e) => Failure(e)
  }

  method Load<H>(user: map<string, string>, filename: string, bundle: Bundle<H>) returns (r: Result<map<string, string>>)
    ensures r == Effective(user, filename, bundle)
  {
    var reference := LoadConfig(filename, bundle);
    if reference.Failure? {
      return Failure(reference.error);
    }
    var config := MergeConfig(user, reference.value);
    r := Success(config);
  }

  /** No matching entry: `load` fails with NotFound naming the file and
      returns no configuration. */
  lemma LoadNotFound<H>(user: map<string, string>, filename: string, bundle: Bundle<H>)
    requires Matches(filename, bundle) == []
    ensures Effective(user, filename, bundle) == Failure(NotFound(filename))
  {
  }

  /** On success the result holds the user keys and the parsed property
      names, user values winning and parsed values filling in the rest. */
  lemma LoadSuccess<H>(user: map<string, string>, filename: string, bundle: Bundle<H>, properties: map<string, string>)
    requires Matches(filename, bundle) != []
    requires bundle.read(Matches(filename, bundle)[0]) == Loaded(properties)
    ensures Effective(user, filename, bundle).Success?
    ensures Effective(user, filename, bundle).value.Keys == user.Keys + properties.Keys
    ensures forall k :: k in user ==> Effective(user, filename, bundle).value[k] == user[k]
    ensures forall k :: k in properties && k !in user ==> Effective(user, filename, bundle).value[k] == properties[k]
  {
  }

  /** A parse failure of the first entry propagates unchanged out of `load`. */
  lemma LoadPropagatesReadErrors<H>(user: map<string, string>, filename: string, bundle: Bundle<H>)
    requires Matches(filename, bundle) != []
    ensures bundle.read(Matches(filename, bundle)[0]) == MalformedEscape ==>
      Effective(user, filename, bundle) == Failure(InvalidFormat)
    ensures bundle.read(Matches(filename, bundle)[0]) == ReadFailed ==>
      Effective(user, filename, bundle) == Failure(IOFailure)
  {
  }

  /** Only the first matching entry is read: two bundles whose first
      matches read the same give the same result, whatever else they hold. */
  lemma LoadReadsFirstEntryOnly<H>(user: map<string, string>, filename: string, b1: Bundle<H>, b2: Bundle<H>)
    requires Matches(filename, b1) != [] && Matches(filename, b2) != []
    requires b1.read(Matches(filename, b1)[0]) == b2.read(Matches(filename, b2)[0])
    ensures Effective(user, filename, b1) == Effective(user, filename, b2)
  {
  }

  /** Reference `a=1`, `b=2` under the user override `b=override`. */
  lemma LoadExample()
    ensures Effective(map["b" := "override"], "reference.cfg", ExampleBundle()) ==
      Success(map["a" := "1", "b" := "override"])
  {
    var bundle := ExampleBundle();
    assert Matches("reference.cfg", bundle) == [1, 2];
    assert ReferenceConfig("reference.cfg", bundle) == Success(map["a" := "1", "b" := "2"]);
    var config := Merged(map["b" := "override"], map["a" := "1", "b" := "2"]);
    assert config.Keys == {"a", "b"};
    assert config["a"] == "1" && config["b"] == "override";
    assert config == map["a" := "1", "b" := "override"];
  }

  function ExampleBundle(): Bundle<int>
  {
    Bundle(
      (path: string, pattern: string, recurse: bool) =>
        if path == "/" && pattern == "reference.cfg" && !recurse then Some([1, 2]) else None,
      (h: int) => if h == 1 then Loaded(map["a" := "1", "b" := "2"]) else ReadFailed)
  }

  /* ---------------------------------------------------------------------- */
  /* The loader as written: the enumeration is dereferenced unchecked        */
  /* ---------------------------------------------------------------------- */

  /** The loader exactly as written: a null enumeration is dereferenced. */
  function ReferenceConfigAsWritten<H>(filename: string, bundle: Bundle<H>): (r: Result<map<string, string>>)
    ensures bundle.findEntries("/", filename, false).None? ==> r == Failure(NullDereference)
    ensures bundle.findEntries("/", filename, false).Some? ==> r == ReferenceConfig(filename, bundle)
  {
    if bundle.findEntries("/", filename, false).None? then
      Failure(NullDereference)
    else
      ReferenceConfig(filename, bundle)
  }

  /** A bundle that answers a search without matches with null, never with
      an empty enumeration. */
  ghost predicate NullWhenNoMatch<H>(bundle: Bundle<H>)
  {
    forall path, pattern, recurse :: bundle.findEntries(path, pattern, recurse) != Some([])
  }

  /** For such a bundle the not-found branch of the loader as written is
      unreachable: a missing file gives a null dereference instead. */
  lemma AsWrittenNeverReportsNotFound<H>(filename: string, bundle: Bundle<H>)
    requires NullWhenNoMatch(bundle)
    ensures ReferenceConfigAsWritten(filename, bundle) != Failure(NotFound(filename))
    ensures Matches(filename, bundle) == [] ==>
      ReferenceConfigAsWritten(filename, bundle) == Failure(NullDereference) &&
      ReferenceConfig(filename, bundle) == Failure(NotFound(filename))
  {
  }

  /** A concrete case: looking up a file the example bundle lacks. */
  lemma MissingFileExample()
    ensures ReferenceConfigAsWritten("missing.cfg", ExampleBundle()) == Failure(NullDereference)
    ensures ReferenceConfig("missing.cfg", ExampleBundle()) == Failure(NotFound("missing.cfg"))
  {
  }
}
