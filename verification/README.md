# configuration-util in Dafny

A model of `ConfigurationUtil`, a small Java/OSGi library that gives a
component an effective configuration: a reference configuration shipped
inside the component's bundle, overridden entry by entry by the
configuration the user supplies.

`load(userConfig, referenceFilename, bundle)` does two things:

- `loadConfig` asks the bundle for the entries named `referenceFilename` at
  the bundle root, without recursion. It fails with "not found" when the
  answer is an empty enumeration. A null answer, which is what an OSGi
  bundle gives when nothing matches, is dereferenced as written (see
  "## Findings"); the model's `LoadConfig` and `Load` are the corrected
  loader, which treats null as no match. Otherwise it opens and parses
  only the first entry as a properties file and copies each property into
  a fresh map.
- `mergeConfig` copies the reference map and writes every user entry over
  the copy, so user values win on a collision.

Everything lives in `configuration_util.dfy`, module `ConfigurationUtil`:

- `Merged`, `ReferenceConfig` and `Effective` are the specification
  functions of merging, loading and `load`.
- `MergeConfig`, `LoadConfig` and `Load` are the imperative operations:
  the `put` loop over the property names, and `putAll` over the user keys.
  Each is proved equal to its specification function. The loops take keys
  in no fixed order (`:|`), as a `HashMap` does.
- The bundle is a `Bundle<H>` value with two functions:
  - `findEntries(path, pattern, recurse)` returns `None` for a null
    enumeration, or the sequence of entry handles.
  - `read(handle)` stands for `openStream` followed by `Properties.load`.
    It gives the parsed properties, a malformed-escape failure or an I/O
    failure.
- Errors are `ConfigError`:
  - `NotFound(name)` stands only for the `FileNotFoundException` thrown
    when no entry matches.
  - `InvalidFormat` stands for the `IllegalArgumentException` of a
    malformed escape.
  - `IOFailure` stands for any `IOException` while opening or reading the
    matched entry. That includes a `FileNotFoundException` from
    `openStream`, which is a subclass of `IOException`.
  - `NullDereference` stands for the `NullPointerException` that only the
    loader as written raises.

## Model

| member | source | states |
|---|---|---|
| `ConfigurationUtil.Merged` | configuration-util/src/main/java/com/github/jarimatti/configurationutil/ConfigurationUtil.java:93-104 | the merged keys are exactly the union of the user and reference keys; every user key keeps its user value even when the reference has it; every key only in the reference keeps its reference value |
| `ConfigurationUtil.MergeConfig` | configuration-util/src/main/java/com/github/jarimatti/configurationutil/ConfigurationUtil.java:100-104 | copying the reference map and then putting each user entry over it, in any key order, yields exactly `Merged(user, reference)` |
| `ConfigurationUtil.MergedEmptyUser` | configuration-util/src/main/java/com/github/jarimatti/configurationutil/ConfigurationUtil.java:101-102 | with an empty user configuration the result equals the reference configuration |
| `ConfigurationUtil.MergedEmptyReference` | configuration-util/src/main/java/com/github/jarimatti/configurationutil/ConfigurationUtil.java:101-102 | with an empty reference configuration the result equals the user configuration |
| `ConfigurationUtil.MergedIdempotent` | configuration-util/src/main/java/com/github/jarimatti/configurationutil/ConfigurationUtil.java:100-104 | merging the same user configuration a second time changes nothing |
| `ConfigurationUtil.MergedDisjointIsUnion` | configuration-util/src/main/java/com/github/jarimatti/configurationutil/ConfigurationUtil.java:100-103 | with disjoint key sets the merge does not depend on which side overrides, and its size is the sum of both sizes: no entry is lost |
| `ConfigurationUtil.ReferenceConfig` | configuration-util/src/main/java/com/github/jarimatti/configurationutil/ConfigurationUtil.java:70-91 | fails with `NotFound(filename)` exactly when no entry matches; succeeds exactly when the first match parses, and then yields exactly the parsed properties; fails with `InvalidFormat` exactly on a malformed escape and with `IOFailure` exactly on a read failure of the first match; never dereferences null |
| `ConfigurationUtil.LoadConfig` | configuration-util/src/main/java/com/github/jarimatti/configurationutil/ConfigurationUtil.java:70-91 | the lookup at `/` without recursion, the first-match read and the `put` loop over the property names give exactly `ReferenceConfig(filename, bundle)`; this is the corrected loader, where a null enumeration counts as no match, and the code as written is `ReferenceConfigAsWritten` |
| `ConfigurationUtil.Effective` | configuration-util/src/main/java/com/github/jarimatti/configurationutil/ConfigurationUtil.java:53-56 | a failure to load the reference configuration is returned unchanged; otherwise the result is the user configuration merged over the loaded reference |
| `ConfigurationUtil.Load` | configuration-util/src/main/java/com/github/jarimatti/configurationutil/ConfigurationUtil.java:40-56 | loading then merging gives exactly `Effective(user, filename, bundle)`; it loads through the corrected loader, where a null enumeration counts as no match, and the code as written is `ReferenceConfigAsWritten` |
| `ConfigurationUtil.LoadNotFound` | configuration-util/src/main/java/com/github/jarimatti/configurationutil/ConfigurationUtil.java:74-88 | when no entry matches, `load` fails with `NotFound` carrying the file name and returns no configuration |
| `ConfigurationUtil.LoadSuccess` | configuration-util/src/main/java/com/github/jarimatti/configurationutil/ConfigurationUtil.java:80-85 | when the first match parses to some properties, `load` succeeds with keys equal to the user keys plus the property names, user values winning and property values filling in the rest |
| `ConfigurationUtil.LoadPropagatesReadErrors` | configuration-util/src/main/java/com/github/jarimatti/configurationutil/ConfigurationUtil.java:78-81 | a malformed escape in the first match makes `load` fail with `InvalidFormat`, and a read failure makes it fail with `IOFailure`, with no merged map |
| `ConfigurationUtil.LoadReadsFirstEntryOnly` | configuration-util/src/main/java/com/github/jarimatti/configurationutil/ConfigurationUtil.java:74-76 | two bundles whose first matches read the same give the same result, whatever their later matches are |
| `ConfigurationUtil.LoadExample` | configuration-util/src/main/java/com/github/jarimatti/configurationutil/ConfigurationUtil.java:53-56 | reference `a=1, b=2` under the user override `b=override` gives `{a: 1, b: override}` |
| `ConfigurationUtil.ReferenceConfigAsWritten` | configuration-util/src/main/java/com/github/jarimatti/configurationutil/ConfigurationUtil.java:74-88 | as written, a null enumeration from the bundle ends in a null dereference; any other answer behaves like `ReferenceConfig` |
| `ConfigurationUtil.AsWrittenNeverReportsNotFound` | configuration-util/src/main/java/com/github/jarimatti/configurationutil/ConfigurationUtil.java:74-75 | for a bundle that answers "no match" with null, the code as written never raises the not-found error: a missing file gives a null dereference, where `ReferenceConfig` gives `NotFound` |
| `ConfigurationUtil.MissingFileExample` | configuration-util/src/main/java/com/github/jarimatti/configurationutil/ConfigurationUtil.java:74-88 | a concrete bundle and a missing file name for which the code as written dereferences null, while the corrected loader reports `NotFound` |

## Findings

| source | as written | input that shows it | evidently intended | confidence | as-written member | corrected member |
|---|---|---|---|---|---|---|
| configuration-util/src/main/java/com/github/jarimatti/configurationutil/ConfigurationUtil.java:74-75 | the enumeration returned by `bundle.findEntries` is used without a null check | a bundle with no entry named `referenceFilename`: the OSGi `Bundle.findEntries` contract returns null when nothing matches, so `configs.hasMoreElements()` throws `NullPointerException` | a missing reference file raises `FileNotFoundException` naming the file, as documented at lines 49 and 66 | medium; not executed; depends on the framework following the OSGi contract for `findEntries` | `ConfigurationUtil.ReferenceConfigAsWritten` (see `AsWrittenNeverReportsNotFound`, `MissingFileExample`) | `ConfigurationUtil.ReferenceConfig` |

## Left out

- Parsing the properties text (`Properties.load`: comments, separators, escapes, line continuations) is part of `java.util.Properties`, which is not part of this model. It is the abstract `Bundle.read`, which yields the parsed properties or one of the two failures.
- `Bundle.findEntries`, `URL.openStream` and the stream are OSGi and I/O plumbing. They are the abstract `Bundle.findEntries` and `Bundle.read`. The source never closes the stream, so no release property is stated.
- Java object identity is not modelled. Maps are Dafny values, so "the inputs are not mutated and the result is a newly built map" holds by construction rather than as a proved `fresh`/`unchanged` property. Null maps, null keys and null values are not modelled either.
- Values are `string` in `Load`, and `Merged` and `MergeConfig` are generic in the value type. The Java `Object` values and `stringPropertyNames()`'s filtering of non-string entries are not modelled: a map loaded from a properties file holds only strings.
- `HashMap` iteration order is not modelled. The loops pick keys in an unspecified order, and no ordering property is stated.
- The private constructor that throws `AssertionError` has no behaviour.
- The sample OSGi component (`SampleComponent`) only logs and calls `load`, so it is not part of this model.
