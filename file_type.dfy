/**
 * The file-type gate shared by the picker and the drop handler of the model
 * viewer: a submission is accepted when a file is present and its name
 * matches the regular expression `/\.(glb|gltf)$/i`.
 *
 * The regular expression is modelled as JavaScript evaluates it: an attempt
 * anchored at each start position (`MatchAt`), tried from left to right
 * (`Search`). The independent description of what the gate is meant to
 * accept is `HasModelExtension`: the name ends in ".glb" or ".gltf" with the
 * letters compared ignoring case. `AcceptsIffModelExtension` connects the two.
 */
module FileType {
  import opened Wrappers

  /** A file reference from the picker or a drop event; only its name is inspected. */
  datatype FileRef = FileRef(name: string)

  /**
   * The canonical form under which a case-insensitive, non-unicode regular
   * expression compares characters. JavaScript upper-cases the character but
   * never lets a non-ASCII character become an ASCII one, so for a pattern
   * made of ASCII letters and '.' only the ASCII letters need folding.
   */
  function Canon(c: char): (r: char)
    ensures 'a' <= c <= 'z' ==> 'A' <= r <= 'Z'
    ensures !('a' <= c <= 'z') ==> r == c
  {
    if 'a' <= c <= 'z' then (c as int - 32) as char else c
  }

  /** Whether `s` spells `word` when letters are compared ignoring case. */
  predicate Spells(s: string, word: string) {
    |s| == |word| && forall i :: 0 <= i < |s| ==> Canon(s[i]) == Canon(word[i])
  }

  /**
   * One attempt of `\.(glb|gltf)$` anchored at position `i`: a literal '.',
   * then the first alternative "glb" or else "gltf", each of which must run
   * to the end of the input for `$` to hold. The result is the length of the
   * matched text.
   */
  function MatchAt(name: string, i: nat): (r: Option<nat>)
    requires i <= |name|
    ensures r.Some? ==> i < |name| && i + r.value == |name| && name[i] == '.'
  {
    if i < |name| && name[i] == '.' then
      if Spells(name[i + 1..], "glb") then Some(4)
      else if Spells(name[i + 1..], "gltf") then Some(5)
      else None
    else None
  }

  /**
   * `String.prototype.match` with a non-global regular expression: the first
   * start position, scanning right from `from`, at which an attempt succeeds
   * (`SearchIsFirstMatch`).
   */
  function Search(name: string, from: nat): Option<nat>
    requires from <= |name|
    decreases |name| - from
  {
    if from == |name| then None
    else if MatchAt(name, from).Some? then Some(from)
    else Search(name, from + 1)
  }

  /** `Search` finds nothing exactly when no attempt succeeds, and otherwise the leftmost success. */
  lemma {:induction false} SearchIsFirstMatch(name: string, from: nat)
    requires from <= |name|
    ensures Search(name, from).None? <==> forall j :: from <= j <= |name| ==> MatchAt(name, j).None?
    ensures Search(name, from).Some? ==>
              var k := Search(name, from).value;
              from <= k < |name| && MatchAt(name, k).Some? &&
              forall j :: from <= j < k ==> MatchAt(name, j).None?
    decreases |name| - from
  {
    if from < |name| && MatchAt(name, from).None? {
      SearchIsFirstMatch(name, from + 1);
    }
  }

  /** The gate of both submission handlers: `file && file.name.match(...)`. */
  predicate Accepts(file: Option<FileRef>) {
    file.Some? && Search(file.value.name, 0).Some?
  }

  /** `name` ends in `ext`, letters compared ignoring case. */
  predicate EndsWithIgnoringCase(name: string, ext: string) {
    |name| >= |ext| && Spells(name[|name| - |ext|..], ext)
  }

  /** The two recognised 3D-asset suffixes. */
  predicate HasModelExtension(name: string) {
    EndsWithIgnoringCase(name, ".glb") || EndsWithIgnoringCase(name, ".gltf")
  }

  /** An attempt succeeds only at the dot of a recognised suffix. */
  lemma MatchOnlyAtSuffix(name: string, i: nat)
    requires i <= |name| && MatchAt(name, i).Some?
    ensures (i == |name| - 4 && EndsWithIgnoringCase(name, ".glb")) ||
            (i == |name| - 5 && EndsWithIgnoringCase(name, ".gltf"))
  {
    var rest := name[i + 1..];
    assert name[i..] == [name[i]] + rest;
    if Spells(rest, "glb") {
      assert forall k :: 1 <= k < 4 ==> name[i..][k] == rest[k - 1];
    } else {
      assert forall k :: 1 <= k < 5 ==> name[i..][k] == rest[k - 1];
    }
  }

  /** The attempt at the dot of a recognised suffix succeeds. */
  lemma SuffixMatches(name: string, ext: string)
    requires ext == ".glb" || ext == ".gltf"
    requires EndsWithIgnoringCase(name, ext)
    ensures MatchAt(name, |name| - |ext|).Some?
  {
    var i := |name| - |ext|;
    var word := ext[1..];
    assert Canon(name[i]) == Canon(ext[0]);
    assert Spells(name[i + 1..], word) by {
      forall k | 0 <= k < |word| ensures Canon(name[i + 1..][k]) == Canon(word[k]) {
        assert name[i + 1..][k] == name[i..][k + 1];
        assert word[k] == ext[k + 1];
      }
    }
    assert word == "glb" || word == "gltf";
  }

  /**
   * The regular expression accepts exactly the names with a recognised
   * suffix, and a file must be present.
   */
  lemma {:induction false} AcceptsIffModelExtension(file: Option<FileRef>)
    ensures Accepts(file) <==> file.Some? && HasModelExtension(file.value.name)
  {
    if file.Some? {
      var name := file.value.name;
      SearchIsFirstMatch(name, 0);
      var r := Search(name, 0);
      if r.Some? {
        MatchOnlyAtSuffix(name, r.value);
      }
      if EndsWithIgnoringCase(name, ".glb") {
        SuffixMatches(name, ".glb");
      } else if EndsWithIgnoringCase(name, ".gltf") {
        SuffixMatches(name, ".gltf");
      }
    }
  }

  /** A name with an upper-case suffix is accepted. */
  lemma UpperCaseAccepted()
    ensures Accepts(Some(FileRef("model.GLB")))
  {
    var name := "model.GLB";
    assert name[|name| - 4..] == ".GLB";
    assert EndsWithIgnoringCase(name, ".glb");
    AcceptsIffModelExtension(Some(FileRef(name)));
  }

  /** A name with another suffix is rejected, and so is a missing file. */
  lemma OtherFormatRejected()
    ensures !Accepts(Some(FileRef("model.obj")))
    ensures !Accepts(None)
  {
    var name := "model.obj";
    assert name[|name| - 4..] == ".obj";
    assert name[|name| - 5..] == "l.obj";
    assert name[|name| - 4..][1] == 'o' && Canon('o') != Canon(".glb"[1]);
    assert !EndsWithIgnoringCase(name, ".glb");
    assert name[|name| - 5..][0] == 'l' && Canon('l') != Canon(".gltf"[0]);
    assert !EndsWithIgnoringCase(name, ".gltf");
    AcceptsIffModelExtension(Some(FileRef(name)));
  }
}
