/** Letter records as the browser application reads them from the JSON feed,
    the normalisation of their sender and receiver fields, and the year filter
    (`filterData`, code/ecoSystem/webservice/js/app.js). */
module Letters {
  import opened Common

  /** A sender or receiver field: one name, a JSON array of names, or missing
      (`undefined`/`null`). */
  datatype Field = Scalar(name: string) | Many(names: seq<string>) | Absent

  /** One letter: `Номер_в_издании` (number), `Отправитель` (sender),
      `Получатель` (receiver), `Год` (year), `Название` (title) and `Текст` (text). */
  datatype Letter = Letter(number: int, sender: Field, receiver: Field, year: Option<int>,
                           title: string, text: string)

  /** The property name JavaScript uses when `undefined` indexes an object. */
  const UndefinedName: string := "undefined"

  /** `Array.isArray(s) ? s : [s]`: a scalar or missing sender is wrapped. */
  function Senders(d: Letter): seq<string> {
    match d.sender
    case Many(names) => names
    case Scalar(name) => [name]
    case Absent => [UndefinedName]
  }

  /** `Array.isArray(r) ? r : (r ? [r] : [])`: a falsy receiver (missing or
      the empty string) means "no addressee". */
  function Receivers(d: Letter): (r: seq<string>)
    ensures r == [] <==> d.receiver == Absent || d.receiver == Scalar("") || d.receiver == Many([])
  {
    match d.receiver
    case Many(names) => names
    case Scalar(name) => if name == "" then [] else [name]
    case Absent => []
  }

  predicate InYears(d: Letter, selectedYears: seq<int>) {
    d.year.Some? && d.year.value in selectedYears
  }

  /** The records whose year is selected, in their original order. */
  function KeepYears(data: seq<Letter>, selectedYears: seq<int>): seq<Letter> {
    if data == [] then []
    else
      var rest := KeepYears(data[..|data| - 1], selectedYears);
      if InYears(data[|data| - 1], selectedYears) then rest + [data[|data| - 1]] else rest
  }

  /** `filterData`: with no year selected the data passes unchanged; otherwise
      exactly the records of a selected year remain. */
  function FilterData(data: seq<Letter>, selectedYears: seq<int>): (r: seq<Letter>)
    ensures selectedYears == [] ==> r == data
    ensures selectedYears != [] ==> forall d :: d in r <==> d in data && InYears(d, selectedYears)
    ensures |r| <= |data|
  {
    if |selectedYears| > 0 then
      KeepYearsMembers(data, selectedYears);
      KeepYears(data, selectedYears)
    else data
  }

  lemma {:induction false} KeepYearsMembers(data: seq<Letter>, selectedYears: seq<int>)
    ensures |KeepYears(data, selectedYears)| <= |data|
    ensures forall d :: d in KeepYears(data, selectedYears) <==> d in data && InYears(d, selectedYears)
  {
    if data != [] {
      KeepYearsMembers(data[..|data| - 1], selectedYears);
      assert data == data[..|data| - 1] + [data[|data| - 1]];
    }
  }

  /** The year filter keeps order: filtering a concatenation is the
      concatenation of the filtered parts. */
  lemma {:induction false} KeepYearsAppend(a: seq<Letter>, b: seq<Letter>, selectedYears: seq<int>)
    ensures KeepYears(a + b, selectedYears) == KeepYears(a, selectedYears) + KeepYears(b, selectedYears)
  {
    if b == [] {
      assert a + b == a;
    } else {
      KeepYearsAppend(a, b[..|b| - 1], selectedYears);
      assert (a + b)[..|a + b| - 1] == a + b[..|b| - 1];
    }
  }
}
