/**
 * The fake dataset: `range`, the `Person` record, the id format of
 * `newPerson` and the number of records `makeData` returns. The random
 * generator is a parameter: `draw(k)` is what it yields for the k-th record.
 */
module Utils {
  /** A JSON-like value, as a dataset record holds. */
  datatype Json =
    | JNull
    | JBool(b: bool)
    | JNumber(x: real)
    | JString(s: string)
    | JArray(elems: seq<Json>)
    | JObject(fields: seq<Field>)

  /** One own property of a record. */
  datatype Field = Field(key: string, value: Json)

  /**
   * A dataset record: its own properties in `Object.entries` order (integer-like
   * keys ascending first, then the other keys in insertion order).
   */
  type Row = seq<Field>

  /** A JavaScript object holds each key at most once. */
  predicate DistinctKeys(row: Row) {
    forall i, j :: 0 <= i < j < |row| ==> row[i].key != row[j].key
  }

  datatype Person = Person(id: string, translatedText: string, translatedChunks: string, ogLanguageScore: real)

  /** The generator's output for one record: a uuid, two texts and a score. */
  datatype Draw = Draw(uuid: string, text: string, chunks: string, score: real)

  /** The keys of a `Person`, in the order its object literal lists them. */
  const PersonKeys: seq<string> := ["id", "translated_text", "translated_chunks", "og_language_score"]

  /** The indices 0, 1, ..., len - 1; none when `len <= 0`. */
  function Indices(len: int): (r: seq<int>)
    ensures |r| == if len <= 0 then 0 else len
    ensures forall i :: 0 <= i < |r| ==> r[i] == i
    decreases len
  {
    if len <= 0 then [] else Indices(len - 1) + [len - 1]
  }

  /** `range`: push 0, 1, ... while below `len`. */
  method Range(len: int) returns (arr: seq<int>)
    ensures arr == Indices(len)
  {
    arr := [];
    var i := 0;
    while i < len
      invariant 0 <= i <= if len <= 0 then 0 else len
      invariant arr == Indices(i)
    {
      arr := arr + [i];
      i := i + 1;
    }
    assert len <= 0 ==> arr == [] == Indices(len);
  }

  /** The id format of a generated record. */
  function UrnId(uuid: string): (id: string)
    ensures |id| == |uuid| + 11
    ensures id[..10] == "<urn:uuid:" && id[|id| - 1] == '>'
    ensures id[10..|id| - 1] == uuid
  {
    "<urn:uuid:" + uuid + ">"
  }

  /** `newPerson`: the index is not used. */
  function NewPerson(index: int, d: Draw): (p: Person)
    ensures |p.id| == |d.uuid| + 11
    ensures p.id[..10] == "<urn:uuid:" && p.id[|p.id| - 1] == '>' && p.id[10..|p.id| - 1] == d.uuid
    ensures p.translatedText == d.text && p.translatedChunks == d.chunks && p.ogLanguageScore == d.score
  {
    Person(UrnId(d.uuid), d.text, d.chunks, d.score)
  }

  /**
   * `makeData(...lens)`: one record per index of `range(lens[0])`; with no
   * length at all `lens[0]` is undefined and the range is empty.
   */
  function MakeData(lens: seq<int>, draw: nat -> Draw): (people: seq<Person>)
    ensures |people| == if |lens| > 0 && lens[0] > 0 then lens[0] else 0
    ensures forall k :: 0 <= k < |people| ==>
      people[k] == NewPerson(k, draw(k)) && people[k].id == UrnId(draw(k).uuid)
  {
    var idx := Indices(if |lens| > 0 then lens[0] else 0);
    seq(|idx|, k requires 0 <= k < |idx| => NewPerson(idx[k], draw(k)))
  }

  /** Only the first length matters: the generator never goes below depth 0. */
  lemma OnlyFirstLengthUsed(lens: seq<int>, draw: nat -> Draw)
    requires |lens| > 0
    ensures MakeData(lens, draw) == MakeData([lens[0]], draw)
  {
  }

  /**
   * A record as the overlay sees it: the four `Person` fields. None of their
   * keys is integer-like, so `Object.entries` order is declaration order.
   */
  function ToRow(p: Person): (row: Row)
    ensures |row| == |PersonKeys|
    ensures forall i :: 0 <= i < |row| ==> row[i].key == PersonKeys[i]
    ensures DistinctKeys(row)
  {
    [ Field("id", JString(p.id)),
      Field("translated_text", JString(p.translatedText)),
      Field("translated_chunks", JString(p.translatedChunks)),
      Field("og_language_score", JNumber(p.ogLanguageScore)) ]
  }

  /** Every generated id is `<urn:uuid:u>` for the uuid drawn for that record. */
  lemma GeneratedIds(lens: seq<int>, draw: nat -> Draw, k: nat)
    requires k < |MakeData(lens, draw)|
    ensures var id := MakeData(lens, draw)[k].id;
      id[..10] == "<urn:uuid:" && id[|id| - 1] == '>' && id[10..|id| - 1] == draw(k).uuid
  {
  }
}
