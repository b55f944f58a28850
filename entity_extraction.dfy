/**
 * The string handling of cognitive/entity_extraction.py around the language
 * model's reply: the greedy `{...}` span search, the one-pass removal of
 * trailing commas before `]` or `}`, and the empty result on any failure.
 * The model call and `json.loads` are passed in as values.
 */
module EntityExtraction {
  import opened Wrappers
  import opened Text

  /** An extracted entity (models/entities.py). */
  datatype EntitySchema = EntitySchema(name: string, entityType: string)

  function FirstIndexOf(s: string, c: char): (r: Option<nat>)
    ensures r.None? <==> c !in s
    ensures r.Some? ==> r.value < |s| && s[r.value] == c && forall i :: 0 <= i < r.value ==> s[i] != c
  {
    if s == [] then None
    else if s[0] == c then Some(0)
    else
      assert s == [s[0]] + s[1..];
      match FirstIndexOf(s[1..], c)
      case None => None
      case Some(j) => Some(j + 1)
  }

  function LastIndexOf(s: string, c: char): (r: Option<nat>)
    ensures r.None? <==> c !in s
    ensures r.Some? ==> r.value < |s| && s[r.value] == c && forall i :: r.value < i < |s| ==> s[i] != c
  {
    if s == [] then None
    else
      var n := |s| - 1;
      assert s == s[..n] + [s[n]];
      if s[n] == c then Some(n) else LastIndexOf(s[..n], c)
  }

  /**
   * `re.search(r'\{.*\}', text, re.DOTALL)`: the leftmost `{` that has a
   * `}` after it starts the match, and the greedy `.*` runs it to the last
   * `}`. Such a `{` exists exactly when the first `{` of the text has one.
   */
  function JsonSpan(text: string): (r: Option<string>)
    ensures r.Some? <==> exists i, j :: 0 <= i < j < |text| && text[i] == '{' && text[j] == '}'
    ensures r.Some? ==> exists i, j :: (0 <= i < j < |text| && text[i] == '{' && text[j] == '}' && r.value == text[i..j + 1]
      && (forall k :: 0 <= k < i ==> text[k] != '{') && (forall k :: j < k < |text| ==> text[k] != '}'))
  {
    match (FirstIndexOf(text, '{'), LastIndexOf(text, '}'))
    case (Some(i), Some(j)) => if i < j then Some(text[i..j + 1]) else None
    case _ => None
  }

  predicate IsCloser(c: char)
  {
    c == ']' || c == '}'
  }

  /** The length of the whitespace run (`\s*`) at the head of `s`. */
  function SpaceRun(s: string): (n: nat)
    ensures n <= |s|
  {
    if s == [] || !IsSpace(s[0]) then 0 else 1 + SpaceRun(s[1..])
  }

  /** The run is whitespace throughout and is not followed by whitespace: it is the longest such prefix. */
  lemma {:induction false} SpaceRunIsLongest(s: string)
    ensures forall i :: 0 <= i < SpaceRun(s) ==> IsSpace(s[i])
    ensures SpaceRun(s) < |s| ==> !IsSpace(s[SpaceRun(s)])
    decreases |s|
  {
    if s != [] && IsSpace(s[0]) {
      var t := s[1..];
      SpaceRunIsLongest(t);
      forall i | 0 < i < SpaceRun(s)
        ensures IsSpace(s[i])
      {
        assert s[i] == t[i - 1];
      }
      if SpaceRun(s) < |s| {
        assert s[SpaceRun(s)] == t[SpaceRun(t)];
      }
    }
  }

  /** Whether whitespace and then `]` or `}` start `s`: what `\s*([\]}])` needs after a comma. */
  predicate CloserAfterSpaces(s: string)
  {
    SpaceRun(s) < |s| && IsCloser(s[SpaceRun(s)])
  }

  /** A comma at position `i` that the pattern `,\s*([\]}])` matches. */
  predicate TrailingCommaAt(s: string, i: int)
  {
    0 <= i < |s| && s[i] == ',' && CloserAfterSpaces(s[i + 1..])
  }

  predicate HasTrailingComma(s: string)
  {
    exists i :: 0 <= i < |s| && TrailingCommaAt(s, i)
  }

  /**
   * `re.sub(r',\s*([\]}])', r'\1', candidate)`: scanning left to right, a
   * comma followed by whitespace and a closing bracket is replaced, together
   * with the whitespace, by the bracket alone; the scan resumes after the
   * bracket.
   */
  function StripTrailingCommas(s: string): string
    decreases |s|
  {
    if s == [] then []
    else if s[0] == ',' && CloserAfterSpaces(s[1..]) then
      var n := SpaceRun(s[1..]);
      [s[1 + n]] + StripTrailingCommas(s[2 + n..])
    else [s[0]] + StripTrailingCommas(s[1..])
  }

  /** The cleanup never lengthens the text. */
  lemma {:induction false} StripNoLonger(s: string)
    ensures |StripTrailingCommas(s)| <= |s|
    decreases |s|
  {
    if s != [] {
      if s[0] == ',' && CloserAfterSpaces(s[1..]) {
        StripNoLonger(s[2 + SpaceRun(s[1..])..]);
      } else {
        StripNoLonger(s[1..]);
      }
    }
  }

  /** The characters that are neither commas nor whitespace, in order. */
  function Solid(s: string): string
  {
    if s == [] then []
    else (if s[0] == ',' || IsSpace(s[0]) then [] else [s[0]]) + Solid(s[1..])
  }

  lemma {:induction false} SolidSkipsSpaces(s: string, n: nat)
    requires n <= |s| && forall i :: 0 <= i < n ==> IsSpace(s[i])
    ensures Solid(s) == Solid(s[n..])
  {
    if n > 0 {
      SolidSkipsSpaces(s[1..], n - 1);
      assert s[1..][n - 1..] == s[n..];
    }
  }

  lemma SolidCons(c: char, t: string)
    ensures Solid([c] + t) == (if c == ',' || IsSpace(c) then [] else [c]) + Solid(t)
  {
    assert ([c] + t)[1..] == t;
  }

  /** One replacement step: if the rest of the text keeps its solid characters, so does the text. */
  lemma StripCommaStep(s: string)
    requires s != [] && s[0] == ',' && CloserAfterSpaces(s[1..])
    requires var rest := s[2 + SpaceRun(s[1..])..];
      Solid(StripTrailingCommas(rest)) == Solid(rest)
    ensures Solid(StripTrailingCommas(s)) == Solid(s)
  {
    var t := s[1..];
    var n := SpaceRun(t);
    var rest := s[2 + n..];
    var h := if t[n] == ',' || IsSpace(t[n]) then [] else [t[n]];
    assert StripTrailingCommas(s) == [t[n]] + StripTrailingCommas(rest);
    SolidCons(t[n], StripTrailingCommas(rest));
    assert Solid(StripTrailingCommas(s)) == h + Solid(rest);
    assert Solid(s) == [] + Solid(t);
    assert [] + Solid(t) == Solid(t);
    SpaceRunIsLongest(t);
    SolidSkipsSpaces(t, n);
    assert t[n..] == [t[n]] + rest;
    SolidCons(t[n], rest);
  }

  /** The cleanup deletes only commas and whitespace: every other character survives, in order. */
  lemma {:induction false} StripKeepsSolid(s: string)
    ensures Solid(StripTrailingCommas(s)) == Solid(s)
    decreases |s|
  {
    if s != [] {
      if s[0] == ',' && CloserAfterSpaces(s[1..]) {
        StripKeepsSolid(s[2 + SpaceRun(s[1..])..]);
        StripCommaStep(s);
      } else {
        var h := if s[0] == ',' || IsSpace(s[0]) then [] else [s[0]];
        StripKeepsSolid(s[1..]);
        SolidCons(s[0], StripTrailingCommas(s[1..]));
        assert Solid(s) == h + Solid(s[1..]);
      }
    }
  }

  /** `r` can be obtained from `s` by deleting characters. */
  predicate Subsequence(r: string, s: string)
    decreases |s|
  {
    if r == [] then true
    else if s == [] then false
    else (r[0] == s[0] && Subsequence(r[1..], s[1..])) || Subsequence(r, s[1..])
  }

  lemma {:induction false} SubsequenceDrop(r: string, s: string, k: nat)
    requires k <= |s| && Subsequence(r, s[k..])
    ensures Subsequence(r, s)
  {
    if k > 0 {
      assert s[1..][k - 1..] == s[k..];
      SubsequenceDrop(r, s[1..], k - 1);
    }
  }

  /** The cleanup only deletes characters: its output is a subsequence of its input. */
  lemma {:induction false} StripIsSubsequence(s: string)
    ensures Subsequence(StripTrailingCommas(s), s)
    decreases |s|
  {
    if s != [] {
      var r := StripTrailingCommas(s);
      if s[0] == ',' && CloserAfterSpaces(s[1..]) {
        var n := SpaceRun(s[1..]);
        var tail := s[1 + n..];
        StripIsSubsequence(tail[1..]);
        assert tail[1..] == s[2 + n..];
        assert r[0] == tail[0] && r[1..] == StripTrailingCommas(tail[1..]);
        assert Subsequence(r, tail);
        SubsequenceDrop(r, s, 1 + n);
      } else {
        StripIsSubsequence(s[1..]);
        assert r[0] == s[0] && r[1..] == StripTrailingCommas(s[1..]);
      }
    }
  }

  lemma TrailingCommaShift(s: string, i: int)
    requires s != [] && 0 <= i < |s| - 1
    ensures TrailingCommaAt(s[1..], i) <==> TrailingCommaAt(s, i + 1)
  {
    assert s[1..][i + 1..] == s[i + 2..];
  }

  /** Without a trailing comma at the head, the pattern occurs in `s` iff it occurs in its tail. */
  lemma HasTrailingCommaTail(s: string)
    requires s != [] && !TrailingCommaAt(s, 0)
    ensures HasTrailingComma(s) <==> HasTrailingComma(s[1..])
  {
    if HasTrailingComma(s) {
      var i :| 0 <= i < |s| && TrailingCommaAt(s, i);
      TrailingCommaShift(s, i - 1);
    }
    if HasTrailingComma(s[1..]) {
      var i :| 0 <= i < |s[1..]| && TrailingCommaAt(s[1..], i);
      TrailingCommaShift(s, i);
    }
  }

  /**
   * The cleanup changes the text exactly when the pattern occurs in it; in
   * particular a text without commas comes back unchanged.
   */
  lemma {:induction false} StripChangesIffTrailingComma(s: string)
    ensures StripTrailingCommas(s) == s <==> !HasTrailingComma(s)
    decreases |s|
  {
    if s != [] {
      if s[0] == ',' && CloserAfterSpaces(s[1..]) {
        assert TrailingCommaAt(s, 0);
        StripNoLonger(s[2 + SpaceRun(s[1..])..]);
        assert |StripTrailingCommas(s)| < |s|;
      } else {
        var tail := StripTrailingCommas(s[1..]);
        StripChangesIffTrailingComma(s[1..]);
        assert !TrailingCommaAt(s, 0);
        HasTrailingCommaTail(s);
        assert StripTrailingCommas(s) == [s[0]] + tail;
        assert s == [s[0]] + s[1..];
        assert ([s[0]] + tail == [s[0]] + s[1..]) <==> tail == s[1..];
      }
    }
  }

  /**
   * Position `k` is deleted by the cleanup: it holds a trailing comma, or
   * lies in the whitespace run between such a comma and its bracket.
   */
  predicate Deleted(s: string, k: int)
  {
    exists j :: 0 <= j <= k && TrailingCommaAt(s, j) && k <= j + SpaceRun(s[j + 1..])
  }

  /** The characters of `s` at positions `i` and beyond that are not deleted, in order. */
  function KeptFrom(s: string, i: nat): string
    decreases |s| - i
  {
    if i >= |s| then [] else (if Deleted(s, i) then [] else [s[i]]) + KeptFrom(s, i + 1)
  }

  /** No deleted stretch that starts before `i` reaches `i`: the scan may resume at `i`. */
  predicate Boundary(s: string, i: nat)
  {
    forall j :: 0 <= j < i && TrailingCommaAt(s, j) ==> j + SpaceRun(s[j + 1..]) < i
  }

  /**
   * `b` is the position of the bracket that closes the trailing comma at `i`,
   * and `m` the position just past it.
   */
  predicate ClosedAt(s: string, i: nat, b: nat, m: nat)
  {
    TrailingCommaAt(s, i) && b == i + 1 + SpaceRun(s[i + 1..]) && m == b + 1
  }

  /** The comma and the whitespace before its bracket are deleted. */
  lemma DeletedInRun(s: string, i: nat, b: nat, m: nat, k: nat)
    requires ClosedAt(s, i, b, m) && i <= k < b
    ensures Deleted(s, k)
  {
    assert 0 <= i <= k && TrailingCommaAt(s, i) && k <= i + SpaceRun(s[i + 1..]);
  }

  lemma KeptAtDeleted(s: string, k: nat, k': nat)
    requires Deleted(s, k) && k' == k + 1
    ensures KeptFrom(s, k) == KeptFrom(s, k')
  {
  }

  /** The comma and the whitespace after it contribute nothing to the kept characters. */
  lemma {:induction false} KeptSkipsRun(s: string, i: nat, b: nat, m: nat, k: nat)
    requires ClosedAt(s, i, b, m) && i <= k <= b
    ensures KeptFrom(s, k) == KeptFrom(s, b)
    decreases b - k
  {
    if k < b {
      DeletedInRun(s, i, b, m, k);
      KeptAtDeleted(s, k, k + 1);
      KeptSkipsRun(s, i, b, m, k + 1);
    }
  }

  /** After a trailing comma come only whitespace and its bracket, so no later trailing comma starts before the bracket is passed. */
  lemma RunHasNoTrailingComma(s: string, i: nat, j: int)
    requires TrailingCommaAt(s, i) && i < j <= i + 1 + SpaceRun(s[i + 1..])
    ensures !TrailingCommaAt(s, j)
  {
    var t := s[i + 1..];
    SpaceRunIsLongest(t);
    assert s[j] == t[j - i - 1];
  }

  /** The replacement step of the scan, at the head of `t`. */
  lemma StripAtHead(t: string, b: nat, m: nat)
    requires ClosedAt(t, 0, b, m)
    ensures m <= |t|
    ensures StripTrailingCommas(t) == [t[b]] + StripTrailingCommas(t[m..])
  {
  }

  lemma StripAtComma(s: string, i: nat, b: nat, m: nat)
    requires ClosedAt(s, i, b, m)
    ensures m <= |s|
    ensures StripTrailingCommas(s[i..]) == [s[b]] + StripTrailingCommas(s[m..])
  {
    var t := s[i..];
    var b', m' := b - i, m - i;
    assert t[1..] == s[i + 1..];
    StripAtHead(t, b', m');
    assert t[m'..] == s[m..];
    assert t[b'] == s[b];
  }

  lemma StripAtOther(s: string, i: nat)
    requires i < |s| && !TrailingCommaAt(s, i)
    ensures StripTrailingCommas(s[i..]) == [s[i]] + StripTrailingCommas(s[i + 1..])
  {
    var t := s[i..];
    assert t[1..] == s[i + 1..];
  }

  /** The scan may resume just past the bracket of a trailing comma. */
  lemma BoundaryAfterComma(s: string, i: nat, b: nat, m: nat)
    requires Boundary(s, i) && ClosedAt(s, i, b, m)
    ensures m <= |s| && Boundary(s, m)
  {
    forall j | 0 <= j < m && TrailingCommaAt(s, j)
      ensures j + SpaceRun(s[j + 1..]) < m
    {
      if i < j {
        RunHasNoTrailingComma(s, i, j);
      }
    }
  }

  /** The bracket that closes a trailing comma is kept. */
  lemma BracketKept(s: string, i: nat, b: nat, m: nat)
    requires Boundary(s, i) && ClosedAt(s, i, b, m)
    ensures b < |s| && !Deleted(s, b)
  {
    forall j | 0 <= j <= b && TrailingCommaAt(s, j)
      ensures j + SpaceRun(s[j + 1..]) < b
    {
      if i < j {
        RunHasNoTrailingComma(s, i, j);
      }
    }
  }

  lemma KeptAtKept(s: string, k: nat, k': nat)
    requires k < |s| && !Deleted(s, k) && k' == k + 1
    ensures KeptFrom(s, k) == [s[k]] + KeptFrom(s, k')
  {
  }

  lemma KeptAtComma(s: string, i: nat, b: nat, m: nat)
    requires Boundary(s, i) && ClosedAt(s, i, b, m)
    ensures m <= |s|
    ensures KeptFrom(s, i) == [s[b]] + KeptFrom(s, m)
  {
    KeptSkipsRun(s, i, b, m, i);
    BracketKept(s, i, b, m);
    KeptAtKept(s, b, m);
  }

  lemma KeptAtOther(s: string, i: nat)
    requires i < |s| && Boundary(s, i) && !TrailingCommaAt(s, i)
    ensures Boundary(s, i + 1)
    ensures KeptFrom(s, i) == [s[i]] + KeptFrom(s, i + 1)
  {
    assert !Deleted(s, i);
  }

  /** At a trailing comma, the scan and the kept characters agree: both emit the bracket and go on past it. */
  lemma {:induction false} CommaStepAgrees(s: string, i: nat, b: nat, m: nat)
    requires Boundary(s, i) && ClosedAt(s, i, b, m)
    ensures StripTrailingCommas(s[i..]) == KeptFrom(s, i)
    decreases |s| - i, 0
  {
    BoundaryAfterComma(s, i, b, m);
    StripMatchesKeptFrom(s, m);
    StripAtComma(s, i, b, m);
    KeptAtComma(s, i, b, m);
  }

  /** Elsewhere both emit the character and go on from the next one. */
  lemma {:induction false} OtherStepAgrees(s: string, i: nat)
    requires i < |s| && Boundary(s, i) && !TrailingCommaAt(s, i)
    ensures StripTrailingCommas(s[i..]) == KeptFrom(s, i)
    decreases |s| - i, 0
  {
    KeptAtOther(s, i);
    StripMatchesKeptFrom(s, i + 1);
    StripAtOther(s, i);
  }

  lemma {:induction false} StripMatchesKeptFrom(s: string, i: nat)
    requires i <= |s| && Boundary(s, i)
    ensures StripTrailingCommas(s[i..]) == KeptFrom(s, i)
    decreases |s| - i, 1
  {
    if i == |s| {
      assert s[i..] == [];
    } else if TrailingCommaAt(s, i) {
      var b := i + 1 + SpaceRun(s[i + 1..]);
      CommaStepAgrees(s, i, b, b + 1);
    } else {
      OtherStepAgrees(s, i);
    }
  }

  /**
   * The cleanup deletes exactly the trailing commas and the whitespace
   * between each of them and its bracket: every other character, commas and
   * whitespace included, comes out unchanged and in order.
   */
  lemma StripDeletesExactlyTrailingCommas(s: string)
    ensures StripTrailingCommas(s) == KeptFrom(s, 0)
  {
    assert s[0..] == s;
    StripMatchesKeptFrom(s, 0);
  }

  /** Only commas and whitespace are ever deleted. */
  lemma DeletedIsCommaOrSpace(s: string, k: int)
    requires Deleted(s, k)
    ensures 0 <= k < |s| && (s[k] == ',' || IsSpace(s[k]))
  {
    var j :| 0 <= j <= k && TrailingCommaAt(s, j) && k <= j + SpaceRun(s[j + 1..]);
    if j < k {
      SpaceRunIsLongest(s[j + 1..]);
      assert s[k] == s[j + 1..][k - j - 1];
    }
  }

  /** One pass is not enough: `,,}` becomes `,}`, which a second pass would turn into `}`. */
  lemma StripNotIdempotent()
    ensures StripTrailingCommas(",,}") == ",}"
    ensures StripTrailingCommas(",}") == "}"
  {
    assert ",,}"[1..] == ",}";
    assert ",}"[1..] == "}";
    assert SpaceRun("}") == 0;
    assert !CloserAfterSpaces(",}");
    assert ",}"[2..] == [];
  }

  /** `json.loads` of the cleaned span followed by building the entity and topic records; `None` where any of it raises. */
  type Decoder = string -> Option<seq<EntitySchema>>

  /**
   * `extract_entities_from_text` after the model call: `None` stands for a
   * call that raised or returned no content. A span that decodes yields the
   * decoded entities; any failure yields none;
   * topics are validated but not kept, because the result record has no
   * field for them.
   */
  function ExtractEntities(llmOutput: Option<string>, decode: Decoder): (r: seq<EntitySchema>)
    ensures llmOutput.None? ==> r == []
    ensures llmOutput.Some? && JsonSpan(llmOutput.value).None? ==> r == []
    ensures llmOutput.Some? && JsonSpan(llmOutput.value).Some? ==>
      var decoded := decode(StripTrailingCommas(JsonSpan(llmOutput.value).value));
      && (decoded.Some? ==> r == decoded.value)
      && (decoded.None? ==> r == [])
    ensures r != [] ==>
      && llmOutput.Some? && JsonSpan(llmOutput.value).Some?
      && decode(StripTrailingCommas(JsonSpan(llmOutput.value).value)) == Some(r)
  {
    if llmOutput.None? then []
    else match JsonSpan(llmOutput.value)
      case None => []
      case Some(span) =>
        match decode(StripTrailingCommas(span))
        case None => []
        case Some(entities) => entities
  }
}
