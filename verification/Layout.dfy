/** The memory map: physical and virtual addresses agree on all of it. */
module Layout {
  import opened Words

  const SECTION: int := 0x10_0000           // PAGE_SIZE: a page is one first-level section
  const KUSE_START: Word := 0x8200_0000     // the kernel's page
  const UMEM_START: Word := 0x8210_0000     // the page of the path tree
  const TASK_MEM_START: Word := 0x8220_0000 // the pages of tasks
  const KSTACK_BOTTOM: Word := 0x9df0_0000
  const WINDOW_END: Word := 0xa000_0000
}
