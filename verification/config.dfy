/** Constants of `src/config/Config.ts` and the loader state of a paged list. */
module Config {

  /** Items the backend returns for one full page. */
  const MAX_ITEM_PER_PAGE: nat := 20

  /** Extension of a schematic file. */
  const SCHEMATIC_FILE_EXTENSION: string := "msch"

  /** LOADING: a load is pending and the footer shows a spinner; MORE: another
      page is believed to exist; NO_MORE: the last reply was short or failed. */
  datatype LoaderState = Loading | More | NoMore
}
