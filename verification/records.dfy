/**
  The records the extractor produces (`company_data_class.py`). A table is
  the list of row dictionaries of one extracted table; cell values are kept
  as text.
 */
module Records {
  type Row = map<string, string>
  type Table = seq<Row>

  /** The document processor's output: the full text and the path of the file it came from. */
  datatype DocumentData = DocumentData(fullText: string, filePath: string)

  /** One section: its decoded number, title, text, tables, summary and page range. */
  datatype SectionData = SectionData(
    sectionNumber: int,
    chapterName: string,
    fullText: string,
    tables: seq<Table>,
    keyFindings: string,
    pages: string)

  datatype CompanyData = CompanyData(companyName: string, sections: seq<SectionData>)
}
