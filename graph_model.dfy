/** The GraphQL-facing records of the server (package `model`) that the parsers and the
    data-access layer produce. Go pointers are `Option`s and slices keep nil apart from empty. */
module GraphModel {
  import opened Wrappers
  import opened Utils

  datatype DiseaseDBLinks = DiseaseDBLinks(icd10: Slice<string>, icd11: Slice<string>, mesh: Slice<string>)

  datatype Disease = Disease(
    id: string,
    names: Slice<string>,
    dbLinks: Option<DiseaseDBLinks>,
    category: string,
    description: string)

  datatype Article = Article(id: string, text: string)

  datatype ClassificationItem = ClassificationItem(id: string, article: Article, classification: int)
}
