/** The `PmData` record the summary lookup yields for one dataset index. */
module Records {
  datatype PmData = PmData(
    title: string,
    summary: string,
    organism: string,
    experimentType: string,
    gseCode: string)
}
