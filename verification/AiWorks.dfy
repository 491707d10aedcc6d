/** internal/mediaorganize/recognition/recognition.go: the works to recognise and the answers about them. */
module AiWorks {
  import opened Parts

  datatype File = File(sourceID: string, info: string)

  /** `info` holds the fields that only the model reads. */
  datatype Work = Work(id: string, mediaTypeHint: string, files: seq<File>, info: string)

  datatype FileResult = FileResult(sourceID: string, episode: Option<int>, kind: string)

  datatype Item = Item(id: string, recognized: bool, title: string, originalTitle: string, year: Option<int>,
                       mediaType: string, season: Option<int>, files: seq<FileResult>)

  function WorkIDs(works: seq<Work>): (ids: set<string>) {
    set w | w in works :: w.id
  }

  function ItemIDs(items: seq<Item>): (ids: set<string>) {
    set i | i in items :: i.id
  }

  predicate DistinctWorks(works: seq<Work>) {
    forall i, j :: 0 <= i < j < |works| ==> works[i].id != works[j].id
  }

  predicate DistinctItems(items: seq<Item>) {
    forall i, j :: 0 <= i < j < |items| ==> items[i].id != items[j].id
  }
}
